/**
 * Ledger operations of many sessions, statement by statement in any order. A session holds the rows of
 * its journals from its first statement to its end (SELECT ... FOR UPDATE, and the keys of an inserted
 * header), statements act in place, and a rollback takes back the session's own statements. Whatever
 * the interleaving, the tables are those of the committed operations run one after the other.
 * (lib/glTransitions.js:161-379, lib/glPosting.js:411-662, db/connection.js:124-150)
 */
module LedgerSessions {
  import opened Text
  import opened LedgerTables
  import opened LedgerSums
  import opened LedgerInvariant
  import opened LedgerStore
  import opened LedgerScripts

  // ----- Tables as queries see them -----

  /** The same row, entries and presence of one journal. */
  predicate AgreeAt(p: Tables, q: Tables, k: JournalId) {
    && (k in p.journals <==> k in q.journals) && (k in p.journals ==> p.journals[k] == q.journals[k])
    && ItemsOf(p.rows, k) == ItemsOf(q.rows, k) && (k in p.order <==> k in q.order)
  }

  /** Equal but for the order in which rows of different journals and audits were inserted. */
  ghost predicate Same(p: Tables, q: Tables) {
    p.accounts == q.accounts && multiset(p.audits) == multiset(q.audits) && forall k :: AgreeAt(p, q, k)
  }

  /** The journals whose row or entries a statement touches. */
  function KeysOf(s: Stmt): set<JournalId> {
    match s
    case InsertHeader(id, _) => {id}
    case InsertEntry(r) => {r.journal}
    case SetApproved(id, _) => {id}
    case SetPosted(id, _) => {id}
    case SetReversedBy(id, _) => {id}
    case SetReverses(id, _) => {id}
    case DeleteEntries(id) => {id}
    case DeleteHeader(id) => {id}
    case _ => {}
  }

  lemma ItemsOfSnoc(rows: seq<Row>, r: Row, k: JournalId)
    ensures ItemsOf(rows + [r], k) == ItemsOf(rows, k) + (if r.journal == k then [r.item] else [])
  { assert (rows + [r])[..|rows|] == rows; }

  /** A statement leaves the journals it does not touch. */
  lemma EffectElsewhere(t: Tables, s: Stmt, k: JournalId)
    requires k !in KeysOf(s)
    ensures AgreeAt(Effect(t, s), t, k)
  {
    match s
    case InsertEntry(r) => ItemsOfSnoc(t.rows, r, k);
    case DeleteEntries(id) => ItemsOfWithout(t.rows, id, k);
    case DeleteHeader(id) => DropKeeps(t.order, id, k);
    case _ =>
  }

  lemma UpdatedAt(p: Tables, q: Tables, id: JournalId, f: Journal -> Journal, k: JournalId)
    requires AgreeAt(p, q, k)
    ensures AgreeAt(LedgerStore.Updated(p, id, f), LedgerStore.Updated(q, id, f), k)
  {}

  lemma RowsAt(p: Tables, q: Tables, s: Stmt, k: JournalId)
    requires AgreeAt(p, q, k) && (s.InsertEntry? || s.DeleteEntries? || s.DeleteHeader?)
    ensures AgreeAt(Effect(p, s), Effect(q, s), k)
  {
    match s
    case InsertEntry(r) => ItemsOfSnoc(p.rows, r, k); ItemsOfSnoc(q.rows, r, k);
    case DeleteEntries(id) => ItemsOfWithout(p.rows, id, k); ItemsOfWithout(q.rows, id, k);
    case DeleteHeader(id) => DropKeeps(p.order, id, k); DropKeeps(q.order, id, k);
  }

  /** What a statement does to one journal depends on that journal only. */
  lemma EffectAt(p: Tables, q: Tables, s: Stmt, k: JournalId)
    requires AgreeAt(p, q, k)
    ensures AgreeAt(Effect(p, s), Effect(q, s), k)
  {
    match s
    case InsertEntry(_) => RowsAt(p, q, s, k);
    case DeleteEntries(_) => RowsAt(p, q, s, k);
    case DeleteHeader(_) => RowsAt(p, q, s, k);
    case SetApproved(id, u) => UpdatedAt(p, q, id, (j: Journal) => j.(status := Approved, approvedBy := u), k);
    case SetPosted(id, u) => UpdatedAt(p, q, id, (j: Journal) => j.(status := Posted, postedBy := u), k);
    case SetReversedBy(id, n) => UpdatedAt(p, q, id, (j: Journal) => j.(reversedBy := Some(n)), k);
    case SetReverses(id, o) => UpdatedAt(p, q, id, (j: Journal) => j.(reverses := Some(o)), k);
    case _ =>
  }

  lemma AuditsAfter(t: Tables, s: Stmt)
    ensures multiset(Effect(t, s).audits) == multiset(t.audits) + (if s.InsertAudit? then multiset{s.audit} else multiset{})
  {}

  lemma SameEffect(p: Tables, q: Tables, s: Stmt)
    requires Same(p, q)
    ensures Same(Effect(p, s), Effect(q, s))
  {
    AuditsAfter(p, s);
    AuditsAfter(q, s);
    forall k ensures AgreeAt(Effect(p, s), Effect(q, s), k) { EffectAt(p, q, s, k); }
  }

  function Moved(accounts: map<AccountId, int>, s: Stmt): map<AccountId, int> {
    if s.AddBalance? then AddOne(accounts, s.account, s.delta) else accounts
  }

  lemma AccountsAfter(t: Tables, s: Stmt)
    ensures Effect(t, s).accounts == Moved(t.accounts, s)
  {}

  lemma MovesCommute(accounts: map<AccountId, int>, x: Stmt, y: Stmt)
    ensures Moved(Moved(accounts, x), y) == Moved(Moved(accounts, y), x)
  {}

  lemma CommuteAt(t: Tables, x: Stmt, y: Stmt, k: JournalId)
    requires k !in KeysOf(x)
    ensures AgreeAt(Effect(Effect(t, x), y), Effect(Effect(t, y), x), k)
  {
    EffectElsewhere(t, x, k);
    EffectAt(Effect(t, x), t, y, k);
    EffectElsewhere(Effect(t, y), x, k);
    AgreeThrough(Effect(Effect(t, x), y), Effect(t, y), Effect(Effect(t, y), x), k);
  }

  lemma AgreeThrough(p: Tables, q: Tables, r: Tables, k: JournalId)
    requires AgreeAt(p, q, k) && (AgreeAt(q, r, k) || AgreeAt(r, q, k))
    ensures AgreeAt(p, r, k) && AgreeAt(r, p, k)
  {}

  /** Statements on different journals may change places; balance updates always may. */
  lemma Commute(t: Tables, x: Stmt, y: Stmt)
    requires KeysOf(x) !! KeysOf(y)
    ensures Same(Effect(Effect(t, x), y), Effect(Effect(t, y), x))
  {
    AccountsAfter(t, x);
    AccountsAfter(t, y);
    AccountsAfter(Effect(t, x), y);
    AccountsAfter(Effect(t, y), x);
    MovesCommute(t.accounts, x, y);
    AuditsAfter(t, x);
    AuditsAfter(t, y);
    AuditsAfter(Effect(t, x), y);
    AuditsAfter(Effect(t, y), x);
    forall k ensures AgreeAt(Effect(Effect(t, x), y), Effect(Effect(t, y), x), k) {
      if k !in KeysOf(x) {
        CommuteAt(t, x, y, k);
      } else {
        CommuteAt(t, y, x, k);
        AgreeThrough(Effect(Effect(t, y), x), Effect(Effect(t, x), y), Effect(Effect(t, x), y), k);
      }
    }
  }

  // ----- Sessions -----

  /**
   * One operation of one session: `script` are its statements, fixed when it has the rows it holds,
   * `numbers` the journal numbers whose keys it holds, `done` how many statements it has executed.
   */
  datatype Phase =
    | Waiting
    | Active(e: Event, script: seq<Stmt>, numbers: set<string>, done: nat)
    | Committed
    | RolledBack

  datatype Entry = Entry(session: nat, stmt: Stmt)

  /** `log` are the statements in force in the order they were executed, `committed` the operations in commit order. */
  datatype World = World(start: Tables, log: seq<Entry>, phases: seq<Phase>, committed: seq<Event>)

  datatype Step = Begin(i: nat, e: Event) | Exec(i: nat) | Commit(i: nat) | Rollback(i: nat)

  function Replay(t: Tables, log: seq<Entry>): Tables {
    if log == [] then t else Effect(Replay(t, log[..|log| - 1]), log[|log| - 1].stmt)
  }

  /** The tables with everything executed so far in place, committed or not. */
  function Physical(w: World): Tables { Replay(w.start, w.log) }

  /** The statements of some sessions. */
  function Sel(log: seq<Entry>, keep: set<nat>): seq<Entry> {
    if log == [] then []
    else
      var n := |log| - 1;
      Sel(log[..n], keep) + (if log[n].session in keep then [log[n]] else [])
  }

  /** The statements of all other sessions. */
  function Less(log: seq<Entry>, drop: set<nat>): seq<Entry> {
    if log == [] then []
    else
      var n := |log| - 1;
      Less(log[..n], drop) + (if log[n].session in drop then [] else [log[n]])
  }

  /** The journals an operation holds. */
  function Holds(e: Event): set<JournalId> {
    match e
    case Post(_, _, id, _, _) => {id}
    case Approve(id, _) => {id}
    case PostApproved(_, id, _, _) => {id}
    case ApprovePost(_, id, _, _) => {id}
    case Delete(id, _) => {id}
    case Reverse(_, id, _, _, newId, _, _) => {id, newId}
  }

  /** The number it brings in or takes away. */
  function HoldsNumbers(t: Tables, e: Event): set<string> {
    if e.Post? || e.Reverse? then {e.number}
    else if e.Delete? && e.id in t.journals then {t.journals[e.id].number}
    else {}
  }

  predicate Clear(w: World, t: Tables, e: Event) {
    forall j {:trigger w.phases[j]} | 0 <= j < |w.phases| && w.phases[j].Active? ::
      Holds(w.phases[j].e) !! Holds(e) && w.phases[j].numbers !! HoldsNumbers(t, e)
  }

  /** A session begins when it gets the rows it wants and its checks pass on what it then sees. */
  predicate Possible(w: World, s: Step) {
    && s.i < |w.phases|
    && match s
       case Begin(i, e) => w.phases[i].Waiting? && Enabled(Physical(w), e) && Clear(w, Physical(w), e)
       case Exec(i) => w.phases[i].Active? && w.phases[i].done < |w.phases[i].script|
       case Commit(i) => w.phases[i].Active? && w.phases[i].done == |w.phases[i].script|
       case Rollback(i) => w.phases[i].Active?
  }

  function Actives(w: World): set<nat> { set i: nat | i < |w.phases| && w.phases[i].Active? }

  function Next(w: World, s: Step): World
    requires Possible(w, s)
  {
    match s
    case Begin(i, e) =>
      var t := Physical(w);
      w.(phases := w.phases[i := Active(e, Script(t, e), HoldsNumbers(t, e), 0)])
    case Exec(i) =>
      var p := w.phases[i];
      w.(log := w.log + [Entry(i, p.script[p.done])], phases := w.phases[i := p.(done := p.done + 1)])
    case Commit(i) =>
      w.(phases := w.phases[i := Committed], committed := w.committed + [w.phases[i].e])
    case Rollback(i) =>
      w.(log := Less(w.log, {i}), phases := w.phases[i := RolledBack])
  }

  ghost predicate IsRunOf(w: World, ss: seq<Step>)
    decreases |ss|
  { ss == [] || (Possible(w, ss[0]) && IsRunOf(Next(w, ss[0]), ss[1..])) }

  ghost function Reached(w: World, ss: seq<Step>): World
    requires IsRunOf(w, ss)
    decreases |ss|
  { if ss == [] then w else Reached(Next(w, ss[0]), ss[1..]) }

  // ----- What an operation leaves alone -----

  /** A journal that is not held keeps its row and entries. */
  lemma Untouched(t: Tables, e: Event, k: JournalId)
    requires Enabled(t, e) && k !in Holds(e)
    ensures AgreeAt(Apply(t, e), t, k)
  {
    match e
    case Post(ctx, spec, id, number, lost) => ItemsOfAppend(t.rows, id, Plan(ctx, spec).value, k);
    case Approve(_, _) =>
    case PostApproved(_, _, _, _) =>
    case ApprovePost(_, _, _, _) =>
    case Delete(id, _) => ItemsOfWithout(t.rows, id, k); DropKeeps(t.order, id, k);
    case Reverse(ctx, _, _, _, newId, _, _) => ItemsOfAppend(t.rows, newId, Plan(ctx, SpecOf(t, e)).value, k);
  }

  /** What an operation checks and does depends on the journals and numbers it holds. */
  lemma Framed(t: Tables, u: Tables, e: Event)
    requires Enabled(t, e) && u.accounts.Keys == t.accounts.Keys && forall k | k in Holds(e) :: AgreeAt(u, t, k)
    requires e.Post? || e.Reverse? ==> NumberFree(u, e.number)
    ensures Enabled(u, e) && Script(u, e) == Script(t, e) && HoldsNumbers(u, e) == HoldsNumbers(t, e)
  {
    if e.Post? || e.Reverse? {
      assert AgreeAt(u, t, e.newId);
      forall c | c in e.ctx.codes ensures e.ctx.codes[c] in u.accounts { assert e.ctx.codes[c] in t.accounts.Keys; }
    }
    if !e.Post? { assert AgreeAt(u, t, e.id); }
  }

  // ----- Statements of different sessions change places -----

  lemma SameThrough(p: Tables, q: Tables, r: Tables)
    requires Same(p, q) && Same(q, r)
    ensures Same(p, r)
  { forall k ensures AgreeAt(p, r, k) { assert AgreeAt(p, q, k) && AgreeAt(q, r, k); } }

  lemma SameSelf(p: Tables)
    ensures Same(p, p)
  {}

  /** A statement comes down past statements on other journals. */
  lemma {:induction false} ComesDown(t: Tables, log: seq<Entry>, x: Stmt)
    requires forall y | y in log :: KeysOf(y.stmt) !! KeysOf(x)
    ensures Same(Effect(Replay(t, log), x), Replay(Effect(t, x), log))
  {
    if log == [] {
      SameSelf(Effect(t, x));
    } else {
      var n := |log| - 1;
      var y := log[n].stmt;
      forall z | z in log[..n] ensures z in log {}
      ComesDown(t, log[..n], x);
      Commute(Replay(t, log[..n]), y, x);
      SameEffect(Effect(Replay(t, log[..n]), x), Replay(Effect(t, x), log[..n]), y);
      SameThrough(Effect(Replay(t, log), x), Effect(Effect(Replay(t, log[..n]), x), y), Replay(Effect(t, x), log));
    }
  }

  lemma NextComesFirst(t: Tables, init: seq<Entry>, z: Entry, i: nat, rest: set<nat>)
    requires i !in rest && Same(Replay(t, Sel(init, rest + {i})), Replay(Replay(t, Sel(init, {i})), Sel(init, rest)))
    requires z.session == i ==> forall y | y in Sel(init, rest) :: KeysOf(y.stmt) !! KeysOf(z.stmt)
    ensures var log := init + [z];
            Same(Replay(t, Sel(log, rest + {i})), Replay(Replay(t, Sel(log, {i})), Sel(log, rest)))
  {
    var p, u, q := Replay(t, Sel(init, rest + {i})), Replay(t, Sel(init, {i})), Replay(Replay(t, Sel(init, {i})), Sel(init, rest));
    SelSnoc(init, z, rest + {i});
    SelSnoc(init, z, {i});
    SelSnoc(init, z, rest);
    ReplaySnoc(t, Sel(init, rest + {i}), z);
    ReplaySnoc(t, Sel(init, {i}), z);
    ReplaySnoc(u, Sel(init, rest), z);
    SameEffect(p, q, z.stmt);
    if z.session == i {
      ComesDown(u, Sel(init, rest), z.stmt);
      SameThrough(Effect(p, z.stmt), Effect(q, z.stmt), Replay(Effect(u, z.stmt), Sel(init, rest)));
    }
  }

  /** All statements of one session come before those of sessions on other journals. */
  lemma {:induction false} ComesFirst(t: Tables, log: seq<Entry>, i: nat, rest: set<nat>)
    requires i !in rest
    requires forall x, y | x in log && y in log && x.session == i && y.session in rest :: KeysOf(y.stmt) !! KeysOf(x.stmt)
    ensures Same(Replay(t, Sel(log, rest + {i})), Replay(Replay(t, Sel(log, {i})), Sel(log, rest)))
  {
    if log == [] {
      assert Replay(t, Sel(log, rest + {i})) == t == Replay(Replay(t, Sel(log, {i})), Sel(log, rest));
      SameSelf(t);
    } else {
      var n := |log| - 1;
      var init, z := log[..n], log[n];
      assert log == init + [z];
      ComesFirst(t, init, i, rest);
      SelWithin(init, rest);
      NextComesFirst(t, init, z, i, rest);
    }
  }

  lemma ReplaySnoc(t: Tables, log: seq<Entry>, z: Entry)
    ensures Replay(t, log + [z]) == Effect(Replay(t, log), z.stmt)
  { assert (log + [z])[..|log|] == log; }

  lemma SelSnoc(init: seq<Entry>, z: Entry, keep: set<nat>)
    ensures Sel(init + [z], keep) == if z.session in keep then Sel(init, keep) + [z] else Sel(init, keep)
  { assert (init + [z])[..|init|] == init; }

  lemma LessSnoc(init: seq<Entry>, z: Entry, drop: set<nat>)
    ensures Less(init + [z], drop) == if z.session in drop then Less(init, drop) else Less(init, drop) + [z]
  { assert (init + [z])[..|init|] == init; }

  lemma {:induction false} SelWithin(log: seq<Entry>, keep: set<nat>)
    ensures forall x :: x in Sel(log, keep) <==> x in log && x.session in keep
  {
    if log != [] {
      var n := |log| - 1;
      SelWithin(log[..n], keep);
      assert log == log[..n] + [log[n]];
    }
  }

  lemma {:induction false} LessThings(log: seq<Entry>, a: set<nat>, b: set<nat>)
    ensures Less(Less(log, a), b) == Less(log, a + b) && Sel(Less(log, a), b) == Sel(log, b - a)
  {
    if log != [] {
      var n := |log| - 1;
      var init, z := log[..n], log[n];
      assert log == init + [z];
      LessThings(init, a, b);
      LessSnoc(init, z, a);
      LessSnoc(init, z, a + b);
      SelSnoc(init, z, b - a);
      if z.session !in a {
        LessSnoc(Less(init, a), z, b);
        SelSnoc(Less(init, a), z, b);
      }
    }
  }

  /** Sessions without statements do not matter. */
  lemma {:induction false} SelSame(log: seq<Entry>, a: set<nat>, b: set<nat>)
    requires forall x | x in log :: x.session in a <==> x.session in b
    ensures Sel(log, a) == Sel(log, b)
  {
    if log != [] {
      var n := |log| - 1;
      assert log == log[..n] + [log[n]];
      SelSame(log[..n], a, b);
    }
  }

  lemma {:induction false} LessSame(log: seq<Entry>, a: set<nat>, b: set<nat>)
    requires forall x | x in log :: x.session in a <==> x.session in b
    ensures Less(log, a) == Less(log, b)
  {
    if log != [] {
      var n := |log| - 1;
      assert log == log[..n] + [log[n]];
      LessSame(log[..n], a, b);
    }
  }

  lemma {:induction false} LessNothing(log: seq<Entry>)
    ensures Less(log, {}) == log && Sel(log, {}) == []
  {
    if log != [] {
      var n := |log| - 1;
      LessNothing(log[..n]);
      assert log == log[..n] + [log[n]];
    }
  }

  // ----- What the statements of an operation touch -----

  /** Only journals it holds; it inserts one that is not there, and deletes one whose number it holds. */
  predicate StmtOk(t: Tables, e: Event, s: Stmt) {
    && KeysOf(s) <= Holds(e)
    && (s.InsertHeader? ==> s.id !in t.journals)
    && (s.DeleteHeader? ==> s.id in t.journals && t.journals[s.id].number in HoldsNumbers(t, e))
  }

  lemma PostStatements(ctx: Ctx, s: Spec, id: JournalId, number: string, items: seq<Item>, lost: set<AccountId>, x: Stmt)
    requires x in PostScript(ctx, s, id, number, items, lost)
    ensures KeysOf(x) <= {id} && !x.DeleteHeader? && (x.InsertHeader? ==> x.id == id)
  {
    var nets := if s.draft then [] else NetUpdates(Kept(SortSet(Accounts(items)), lost), items);
    assert x == InsertHeader(id, NewJournal(ctx, s, number, items)) || x in nets || x in EntryInserts(id, items);
  }

  lemma LinkStatements(id: JournalId, newId: JournalId, actor: string, x: Stmt)
    requires x in LinkScript(id, newId, actor)
    ensures KeysOf(x) <= {id, newId} && !x.DeleteHeader? && !x.InsertHeader?
  {}

  lemma InFirstOrSecond(a: seq<Stmt>, b: seq<Stmt>, x: Stmt)
    requires x in a + b
    ensures x in a || x in b
  {}

  lemma ReverseStatements(ctx: Ctx, s: Spec, id: JournalId, newId: JournalId, number: string, items: seq<Item>,
                          lost: set<AccountId>, actor: string, x: Stmt)
    requires x in PostScript(ctx, s, newId, number, items, lost) + LinkScript(id, newId, actor)
    ensures KeysOf(x) <= {id, newId} && !x.DeleteHeader? && (x.InsertHeader? ==> x.id == newId)
  {
    var post, links := PostScript(ctx, s, newId, number, items, lost), LinkScript(id, newId, actor);
    InFirstOrSecond(post, links, x);
    if x in post { PostStatements(ctx, s, newId, number, items, lost, x); } else { LinkStatements(id, newId, actor, x); }
  }

  lemma PostingStatements(t: Tables, id: JournalId, u: User, action: string, x: Stmt)
    requires x in EntryUpdates(SortByAccount(ItemsOf(t.rows, id))) + [SetPosted(id, ActorOf(u)), InsertAudit(Audit(action, id, ActorOf(u)))]
    ensures KeysOf(x) <= {id} && !x.InsertHeader? && !x.DeleteHeader?
  {}

  lemma ScriptStatements(t: Tables, e: Event, x: Stmt)
    requires Enabled(t, e) && x in Script(t, e)
    ensures StmtOk(t, e, x)
  {
    match e
    case Post(ctx, spec, id, number, lost) => PostStatements(ctx, spec, id, number, Plan(ctx, spec).value, lost, x);
    case Approve(_, _) =>
    case PostApproved(_, id, u, _) => PostingStatements(t, id, u, "post_journal", x);
    case ApprovePost(_, id, u, _) => if !x.SetApproved? { PostingStatements(t, id, u, "approve_post_journal", x); }
    case Delete(_, _) =>
    case Reverse(ctx, id, u, date, newId, number, lost) =>
      var spec := ReversalSpec(id, ItemsOf(t.rows, id), date, ReverserOf(u));
      ReverseStatements(ctx, spec, id, newId, number, Plan(ctx, spec).value, lost, ReverserOf(u), x);
  }

  lemma {:induction false} ReplayElsewhere(t: Tables, log: seq<Entry>, k: JournalId)
    requires forall x | x in log :: k !in KeysOf(x.stmt)
    ensures AgreeAt(Replay(t, log), t, k)
  {
    if log != [] {
      var n := |log| - 1;
      assert log == log[..n] + [log[n]];
      ReplayElsewhere(t, log[..n], k);
      EffectElsewhere(Replay(t, log[..n]), log[n].stmt, k);
      AgreeThrough(Replay(t, log), Replay(t, log[..n]), t, k);
    }
  }

  lemma {:induction false} ReplayAccounts(t: Tables, log: seq<Entry>)
    ensures Replay(t, log).accounts.Keys == t.accounts.Keys
  {
    if log != [] {
      ReplayAccounts(t, log[..|log| - 1]);
      AccountsAfter(Replay(t, log[..|log| - 1]), log[|log| - 1].stmt);
    }
  }

  /** Every number of t is still in p, or is held. */
  predicate NumbersStand(t: Tables, p: Tables, held: set<string>) {
    forall k | k in t.journals ::
      (k in p.journals && p.journals[k].number == t.journals[k].number) || t.journals[k].number in held
  }

  lemma NumbersStandNext(t: Tables, p: Tables, held: set<string>, s: Stmt)
    requires NumbersStand(t, p, held)
    requires s.InsertHeader? ==> s.id !in t.journals
    requires s.DeleteHeader? ==> s.id in t.journals && t.journals[s.id].number in held
    ensures NumbersStand(t, Effect(p, s), held)
  {}

  lemma {:induction false} ReplayNumbers(t: Tables, log: seq<Entry>, held: set<string>)
    requires forall x | x in log :: x.stmt.InsertHeader? ==> x.stmt.id !in t.journals
    requires forall x | x in log :: x.stmt.DeleteHeader? ==> x.stmt.id in t.journals && t.journals[x.stmt.id].number in held
    ensures NumbersStand(t, Replay(t, log), held)
  {
    if log != [] {
      var n := |log| - 1;
      assert log == log[..n] + [log[n]];
      ReplayNumbers(t, log[..n], held);
      NumbersStandNext(t, Replay(t, log[..n]), held, log[n].stmt);
    }
  }

  // ----- The invariant -----

  function Tagged(i: nat, ss: seq<Stmt>): (r: seq<Entry>)
    ensures |r| == |ss|
  { seq(|ss|, k requires 0 <= k < |ss| => Entry(i, ss[k])) }

  /** An active operation would do now, on the committed tables alone, what it is doing. */
  predicate PhaseOk(log: seq<Entry>, t: Tables, i: nat, p: Phase) {
    match p
    case Waiting => Sel(log, {i}) == []
    case Active(e, script, numbers, done) =>
      && Enabled(t, e) && script == Script(t, e) && numbers == HoldsNumbers(t, e)
      && done <= |script| && Sel(log, {i}) == Tagged(i, script[..done])
    case _ => true
  }

  predicate SessionOk(w: World, t: Tables, i: nat)
    requires i < |w.phases|
  { PhaseOk(w.log, t, i, w.phases[i]) }

  predicate ApartOk(w: World) {
    forall i, j {:trigger w.phases[i], w.phases[j]} | 0 <= i < |w.phases| && 0 <= j < |w.phases| && i != j && w.phases[i].Active? && w.phases[j].Active? ::
      Holds(w.phases[i].e) !! Holds(w.phases[j].e) && w.phases[i].numbers !! w.phases[j].numbers
  }

  /** Without the statements of some active sessions, the physical tables are the committed ones with those of the others. */
  ghost predicate Consistent(w: World, t: Tables, dropped: set<nat>) {
    Same(Replay(w.start, Less(w.log, dropped)), Replay(t, Sel(w.log, Actives(w) - dropped)))
  }

  ghost predicate InvAt(w: World, t: Tables) {
    && (forall i | 0 <= i < |w.phases| :: SessionOk(w, t, i)) && ApartOk(w)
    && forall dropped | dropped <= Actives(w) :: Consistent(w, t, dropped)
  }

  ghost predicate Inv(w: World) { IsRun(w.start, w.committed) && InvAt(w, After(w.start, w.committed)) }

  /** A statement in the log of an active session is one of its script. */
  lemma LoggedStatement(w: World, t: Tables, x: Entry)
    requires InvAt(w, t) && x in w.log && x.session < |w.phases| && w.phases[x.session].Active?
    ensures StmtOk(t, w.phases[x.session].e, x.stmt)
  {
    var i := x.session;
    assert SessionOk(w, t, i);
    SelWithin(w.log, {i});
    assert x in Tagged(i, w.phases[i].script[..w.phases[i].done]);
    ScriptStatements(t, w.phases[i].e, x.stmt);
  }

  lemma LoggedApart(w: World, t: Tables, i: nat)
    requires InvAt(w, t) && i in Actives(w)
    ensures forall x, y | x in w.log && y in w.log && x.session == i && y.session in Actives(w) - {i} :: KeysOf(y.stmt) !! KeysOf(x.stmt)
  {
    forall x, y | x in w.log && y in w.log && x.session == i && y.session in Actives(w) - {i} ensures KeysOf(y.stmt) !! KeysOf(x.stmt) {
      LoggedStatement(w, t, x);
      LoggedStatement(w, t, y);
      assert Holds(w.phases[i].e) !! Holds(w.phases[y.session].e);
    }
  }

  // ----- Every step keeps it -----

  lemma ExecConsistent(w: World, t: Tables, i: nat, dropped: set<nat>)
    requires Possible(w, Exec(i)) && dropped <= Actives(w) && Consistent(w, t, dropped)
    ensures Actives(Next(w, Exec(i))) == Actives(w) && Consistent(Next(w, Exec(i)), t, dropped)
  {
    var w' := Next(w, Exec(i));
    var x := Entry(i, w.phases[i].script[w.phases[i].done]);
    assert Actives(w') == Actives(w) && i in Actives(w);
    LessSnoc(w.log, x, dropped);
    SelSnoc(w.log, x, Actives(w) - dropped);
    if i !in dropped {
      ReplaySnoc(w.start, Less(w.log, dropped), x);
      ReplaySnoc(t, Sel(w.log, Actives(w) - dropped), x);
      SameEffect(Replay(w.start, Less(w.log, dropped)), Replay(t, Sel(w.log, Actives(w) - dropped)), x.stmt);
    }
  }

  lemma OtherPhaseOk(log: seq<Entry>, x: Entry, t: Tables, j: nat, q: Phase)
    requires x.session != j && PhaseOk(log, t, j, q)
    ensures PhaseOk(log + [x], t, j, q)
  { SelSnoc(log, x, {j}); }

  lemma TaggedNext(i: nat, ss: seq<Stmt>, k: nat)
    requires k < |ss|
    ensures Tagged(i, ss[..k + 1]) == Tagged(i, ss[..k]) + [Entry(i, ss[k])]
  {}

  lemma NextPhaseOk(log: seq<Entry>, t: Tables, i: nat, p: Phase)
    requires p.Active? && p.done < |p.script| && PhaseOk(log, t, i, p)
    ensures PhaseOk(log + [Entry(i, p.script[p.done])], t, i, p.(done := p.done + 1))
  {
    var x := Entry(i, p.script[p.done]);
    SelSnoc(log, x, {i});
    TaggedNext(i, p.script, p.done);
  }

  lemma ExecKeeps(w: World, t: Tables, i: nat)
    requires InvAt(w, t) && Possible(w, Exec(i))
    ensures InvAt(Next(w, Exec(i)), t)
  {
    var w' := Next(w, Exec(i));
    forall j | 0 <= j < |w'.phases| ensures SessionOk(w', t, j) {
      assert SessionOk(w, t, j);
      if j == i { NextPhaseOk(w.log, t, i, w.phases[i]); }
      else { OtherPhaseOk(w.log, Entry(i, w.phases[i].script[w.phases[i].done]), t, j, w.phases[j]); }
    }
    assert Actives(w') == Actives(w);
    forall dropped | dropped <= Actives(w') ensures Consistent(w', t, dropped) { ExecConsistent(w, t, i, dropped); }
  }

  lemma RollbackConsistent(w: World, t: Tables, i: nat, dropped: set<nat>)
    requires Possible(w, Rollback(i)) && dropped <= Actives(w) - {i} && Consistent(w, t, {i} + dropped)
    ensures Actives(Next(w, Rollback(i))) == Actives(w) - {i} && Consistent(Next(w, Rollback(i)), t, dropped)
  {
    var w' := Next(w, Rollback(i));
    assert Actives(w') == Actives(w) - {i};
    LessThings(w.log, {i}, dropped);
    LessThings(w.log, {i}, Actives(w') - dropped);
    assert (Actives(w') - dropped) - {i} == Actives(w) - ({i} + dropped);
  }

  lemma RollbackKeeps(w: World, t: Tables, i: nat)
    requires InvAt(w, t) && Possible(w, Rollback(i))
    ensures InvAt(Next(w, Rollback(i)), t)
  {
    var w' := Next(w, Rollback(i));
    forall j | 0 <= j < |w'.phases| ensures SessionOk(w', t, j) {
      assert SessionOk(w, t, j);
      LessThings(w.log, {i}, {j});
      if j != i { assert {j} - {i} == {j}; }
    }
    assert Actives(w') == Actives(w) - {i};
    forall dropped | dropped <= Actives(w') ensures Consistent(w', t, dropped) {
      assert {i} + dropped <= Actives(w);
      assert Consistent(w, t, {i} + dropped);
      RollbackConsistent(w, t, i, dropped);
    }
  }

  lemma {:induction false} TaggedReplay(t: Tables, i: nat, ss: seq<Stmt>)
    ensures Replay(t, Tagged(i, ss)) == EffectAll(t, ss)
  {
    if ss != [] {
      var n := |ss| - 1;
      TaggedReplay(t, i, ss[..n]);
      assert Tagged(i, ss)[..n] == Tagged(i, ss[..n]);
    }
  }

  /** A number an operation does not bring in stays free. */
  lemma StillFree(t: Tables, e: Event, n: string)
    requires Enabled(t, e) && NumberFree(t, n) && n !in HoldsNumbers(t, e)
    ensures NumberFree(Apply(t, e), n)
  {
    var u := Apply(t, e);
    forall k | k in u.journals ensures u.journals[k].number != n {
      if k in t.journals { assert t.journals[k].number != n; }
    }
  }

  /** After the commit of one operation the others would still do what they are doing. */
  lemma OthersFramed(t: Tables, e: Event, f: Event)
    requires Enabled(t, e) && Enabled(t, f) && Holds(e) !! Holds(f) && HoldsNumbers(t, e) !! HoldsNumbers(t, f)
    ensures Enabled(Apply(t, e), f) && Script(Apply(t, e), f) == Script(t, f) && HoldsNumbers(Apply(t, e), f) == HoldsNumbers(t, f)
  {
    forall k | k in Holds(f) ensures AgreeAt(Apply(t, e), t, k) { Untouched(t, e, k); }
    if f.Post? || f.Reverse? { StillFree(t, e, f.number); }
    Framed(t, Apply(t, e), f);
  }

  lemma CommitConsistent(w: World, t: Tables, i: nat, dropped: set<nat>)
    requires InvAt(w, t) && Possible(w, Commit(i)) && dropped <= Actives(w) - {i} && Enabled(t, w.phases[i].e)
    ensures Actives(Next(w, Commit(i))) == Actives(w) - {i}
    ensures Consistent(Next(w, Commit(i)), Apply(t, w.phases[i].e), dropped)
  {
    var w', p := Next(w, Commit(i)), w.phases[i];
    assert Actives(w') == Actives(w) - {i};
    assert SessionOk(w, t, i) && p.script[..p.done] == p.script;
    assert Consistent(w, t, dropped);
    var rest := Actives(w') - dropped;
    assert Actives(w) - dropped == rest + {i};
    LoggedApart(w, t, i);
    ComesFirst(t, w.log, i, rest);
    TaggedReplay(t, i, p.script);
    ScriptEffect(t, p.e);
    SameThrough(Replay(w.start, Less(w.log, dropped)), Replay(t, Sel(w.log, rest + {i})), Replay(Apply(t, p.e), Sel(w.log, rest)));
  }

  lemma CommitKeeps(w: World, t: Tables, i: nat)
    requires InvAt(w, t) && Possible(w, Commit(i))
    ensures Enabled(t, w.phases[i].e) && InvAt(Next(w, Commit(i)), Apply(t, w.phases[i].e))
  {
    var w', e := Next(w, Commit(i)), w.phases[i].e;
    assert SessionOk(w, t, i);
    forall j | 0 <= j < |w'.phases| ensures SessionOk(w', Apply(t, e), j) {
      assert SessionOk(w, t, j);
      if j != i && w.phases[j].Active? {
        assert Holds(e) !! Holds(w.phases[j].e) && w.phases[i].numbers !! w.phases[j].numbers;
        OthersFramed(t, e, w.phases[j].e);
      }
    }
    assert Actives(w') == Actives(w) - {i};
    forall dropped | dropped <= Actives(w') ensures Consistent(w', Apply(t, e), dropped) { CommitConsistent(w, t, i, dropped); }
  }

  /** What a session sees of the rows it gets is what is committed. */
  lemma SeesCommitted(w: World, t: Tables, e: Event, k: JournalId)
    requires InvAt(w, t) && Clear(w, Physical(w), e) && k in Holds(e)
    ensures AgreeAt(t, Physical(w), k)
  {
    var live := Sel(w.log, Actives(w));
    LessNothing(w.log);
    assert Consistent(w, t, {}) && Actives(w) - {} == Actives(w);
    SelWithin(w.log, Actives(w));
    forall x | x in live ensures k !in KeysOf(x.stmt) {
      LoggedStatement(w, t, x);
      assert Holds(w.phases[x.session].e) !! Holds(e);
    }
    ReplayElsewhere(t, live, k);
    AgreeThrough(Physical(w), Replay(t, live), t, k);
  }

  function Held(w: World): set<string> {
    set i: nat, n: string | i < |w.phases| && w.phases[i].Active? && n in w.phases[i].numbers :: n
  }

  /** A number that is free in what a session sees, and held by nobody, is free among the committed ones. */
  lemma FreeIsFree(w: World, t: Tables, e: Event)
    requires InvAt(w, t) && (e.Post? || e.Reverse?) && Clear(w, Physical(w), e) && NumberFree(Physical(w), e.number)
    ensures NumberFree(t, e.number)
  {
    var live := Sel(w.log, Actives(w));
    LessNothing(w.log);
    assert Consistent(w, t, {}) && Actives(w) - {} == Actives(w);
    SelWithin(w.log, Actives(w));
    forall x | x in live
      ensures x.stmt.InsertHeader? ==> x.stmt.id !in t.journals
      ensures x.stmt.DeleteHeader? ==> x.stmt.id in t.journals && t.journals[x.stmt.id].number in Held(w)
    {
      LoggedStatement(w, t, x);
      assert SessionOk(w, t, x.session);
    }
    ReplayNumbers(t, live, Held(w));
    assert e.number !in Held(w);
    forall k | k in t.journals ensures t.journals[k].number != e.number {
      assert AgreeAt(Physical(w), Replay(t, live), k);
    }
  }

  lemma BeginKeeps(w: World, t: Tables, i: nat, e: Event)
    requires InvAt(w, t) && Possible(w, Begin(i, e))
    ensures InvAt(Next(w, Begin(i, e)), t)
  {
    var w', p := Next(w, Begin(i, e)), Physical(w);
    forall k | k in Holds(e) ensures AgreeAt(t, p, k) { SeesCommitted(w, t, e, k); }
    if e.Post? || e.Reverse? { FreeIsFree(w, t, e); }
    LessNothing(w.log);
    assert Consistent(w, t, {});
    ReplayAccounts(t, Sel(w.log, Actives(w) - {}));
    Framed(p, t, e);
    assert SessionOk(w, t, i);
    forall j | 0 <= j < |w'.phases| ensures SessionOk(w', t, j) {
      assert SessionOk(w, t, j);
      if j == i { assert Tagged(i, Script(t, e)[..0]) == []; }
    }
    forall dropped | dropped <= Actives(w') ensures Consistent(w', t, dropped) { BeginConsistent(w, t, i, e, dropped); }
  }

  /** A session that has not executed anything makes no difference. */
  lemma BeginConsistent(w: World, t: Tables, i: nat, e: Event, dropped: set<nat>)
    requires InvAt(w, t) && Possible(w, Begin(i, e)) && dropped <= Actives(Next(w, Begin(i, e)))
    ensures Consistent(Next(w, Begin(i, e)), t, dropped)
  {
    var w' := Next(w, Begin(i, e));
    assert SessionOk(w, t, i);
    assert Actives(w') == Actives(w) + {i};
    SelWithin(w.log, {i});
    forall x | x in w.log ensures x.session != i { assert x.session == i ==> x in Sel(w.log, {i}); }
    assert dropped - {i} <= Actives(w) && Consistent(w, t, dropped - {i});
    LessSame(w.log, dropped, dropped - {i});
    SelSame(w.log, Actives(w') - dropped, Actives(w) - (dropped - {i}));
  }

  // ----- Every run -----

  lemma {:induction false} RunJoin(t: Tables, es: seq<Event>, e: Event)
    requires IsRun(t, es) && Enabled(After(t, es), e)
    ensures IsRun(t, es + [e]) && After(t, es + [e]) == Apply(After(t, es), e)
    decreases |es|
  {
    if es == [] {
      assert [] + [e] == [e] && [e][1..] == [];
      assert IsRun(Apply(t, e), []);
    } else {
      assert (es + [e])[0] == es[0] && (es + [e])[1..] == es[1..] + [e];
      RunJoin(Apply(t, es[0]), es[1..], e);
    }
  }

  lemma StepKeeps(w: World, s: Step)
    requires Inv(w) && Possible(w, s)
    ensures Inv(Next(w, s)) && Next(w, s).start == w.start
  {
    var t := After(w.start, w.committed);
    match s
    case Begin(i, e) => BeginKeeps(w, t, i, e);
    case Exec(i) => ExecKeeps(w, t, i);
    case Commit(i) =>
      CommitKeeps(w, t, i);
      RunJoin(w.start, w.committed, w.phases[i].e);
    case Rollback(i) => RollbackKeeps(w, t, i);
  }

  lemma {:induction false} RunKeeps(w: World, ss: seq<Step>)
    requires Inv(w) && IsRunOf(w, ss)
    ensures Inv(Reached(w, ss)) && Reached(w, ss).start == w.start
    decreases |ss|
  {
    if ss != [] {
      StepKeeps(w, ss[0]);
      RunKeeps(Next(w, ss[0]), ss[1..]);
    }
  }

  predicate Fresh(w: World) { w.log == [] && w.committed == [] && forall i | 0 <= i < |w.phases| :: w.phases[i].Waiting? }

  lemma FreshInv(w: World)
    requires Fresh(w)
    ensures Inv(w)
  {
    assert Actives(w) == {};
    forall dropped | dropped <= Actives(w) ensures Consistent(w, w.start, dropped) { SameSelf(w.start); }
  }

  /**
   * Any number of sessions, any interleaving of their statements, commits and rollbacks: the committed
   * operations, in commit order, are a run of the six operations, each going through, and the tables
   * without the statements of sessions still active are those of that run. So when no session is
   * active, the physical tables are those of a serial execution.
   */
  lemma Serializable(w: World, ss: seq<Step>)
    requires Fresh(w) && IsRunOf(w, ss)
    ensures var v := Reached(w, ss);
            && IsRun(w.start, v.committed)
            && Same(Replay(w.start, Less(v.log, Actives(v))), After(w.start, v.committed))
            && (Actives(v) == {} ==> Same(Physical(v), After(w.start, v.committed)))
  {
    FreshInv(w);
    RunKeeps(w, ss);
    var v := Reached(w, ss);
    var t := After(w.start, v.committed);
    assert Consistent(v, t, Actives(v)) && Actives(v) - Actives(v) == {};
    LessNothing(v.log);
  }
}
