/** What every ledger operation keeps (lib/glPosting.js:461-662, lib/glTransitions.js:140-391). */
module LedgerInvariant {
  import opened Text
  import opened LedgerTables
  import opened LedgerSums

  predicate Distinct(s: seq<JournalId>) { forall i, j | 0 <= i < j < |s| :: s[i] != s[j] }

  /** j stands before k in the insertion order. */
  predicate Before(order: seq<JournalId>, j: JournalId, k: JournalId) {
    exists a, b | 0 <= a < b < |order| :: order[a] == j && order[b] == k
  }

  /** Rows belong to existing journals and accounts and carry one positive side. */
  predicate RowsOk(t: Tables) {
    forall r | r in t.rows :: r.journal in t.journals && r.item.account in t.accounts && OneSided(r.item) && r.item.code != ""
  }

  ghost predicate OrderOk(t: Tables) {
    && Distinct(t.order)
    && (forall k :: k in t.order <==> k in t.journals)
  }

  predicate NumbersOk(t: Tables) {
    forall j, k | j in t.journals && k in t.journals && t.journals[j].number == t.journals[k].number :: j == k
  }

  /** The header totals are the sums of its entries and differ by one halala at most. */
  predicate HeaderMatches(j: Journal, items: seq<Item>) {
    && items != []
    && j.totalDebit == SumDebit(items) && j.totalCredit == SumCredit(items)
    && -1 <= j.totalDebit - j.totalCredit <= 1
  }

  predicate HeaderOk(t: Tables, id: JournalId)
    requires id in t.journals
  { HeaderMatches(t.journals[id], ItemsOf(t.rows, id)) }

  predicate HeadersOk(t: Tables) { forall id {:trigger HeaderOk(t, id)} | id in t.journals :: HeaderOk(t, id) }

  /** balance == sum of debit - credit over the entries of posted journals. */
  predicate BalancesOk(t: Tables) {
    forall a | a in t.accounts :: t.accounts[a] == NetOfJournals(t.rows, PostedIds(t), a)
  }

  predicate LinkOk(t: Tables, k: JournalId)
    requires k in t.journals
  {
    var j := t.journals[k];
    && (j.reverses.Some? ==>
          var o := j.reverses.value;
          && o in t.journals && t.journals[o].reversedBy == Some(k)
          && j.status == Posted && t.journals[o].status == Posted
          && j.totalDebit == t.journals[o].totalCredit && j.totalCredit == t.journals[o].totalDebit
          && Before(t.order, o, k))
    && (j.reversedBy.Some? ==>
          j.reversedBy.value in t.journals && t.journals[j.reversedBy.value].reverses == Some(k))
  }

  /** The two link fields are mutually inverse, join posted journals and point back in time. */
  predicate LinksOk(t: Tables) { forall k {:trigger LinkOk(t, k)} | k in t.journals :: LinkOk(t, k) }

  ghost predicate Structure(t: Tables) {
    RowsOk(t) && OrderOk(t) && NumbersOk(t) && HeadersOk(t) && LinksOk(t)
  }

  ghost predicate Inv(t: Tables) { Structure(t) && BalancesOk(t) }

  // ----- The rows and order of a journal list -----

  lemma BeforeAppend(order: seq<JournalId>, k: JournalId, x: JournalId, y: JournalId)
    requires Before(order, x, y)
    ensures Before(order + [k], x, y)
  {
    var a, b :| 0 <= a < b < |order| && order[a] == x && order[b] == y;
    assert (order + [k])[a] == x && (order + [k])[b] == y;
  }

  lemma BeforeLast(order: seq<JournalId>, x: JournalId, k: JournalId)
    requires x in order
    ensures Before(order + [k], x, k)
  {
    var a :| 0 <= a < |order| && order[a] == x;
    assert (order + [k])[a] == x && (order + [k])[|order|] == k;
  }

  lemma {:induction false} DropKeeps(order: seq<JournalId>, id: JournalId, k: JournalId)
    ensures k in Drop(order, id) <==> k in order && k != id
  {
    if order != [] {
      DropKeeps(order[..|order| - 1], id, k);
      assert order == order[..|order| - 1] + [order[|order| - 1]];
    }
  }

  lemma {:induction false} DropBefore(order: seq<JournalId>, id: JournalId, x: JournalId, y: JournalId)
    requires Before(order, x, y) && x != id && y != id
    ensures Before(Drop(order, id), x, y)
  {
    var a, b :| 0 <= a < b < |order| && order[a] == x && order[b] == y;
    var init, last := order[..|order| - 1], order[|order| - 1];
    if b < |order| - 1 {
      assert init[a] == x && init[b] == y;
      DropBefore(init, id, x, y);
      if last != id { BeforeAppend(Drop(init, id), last, x, y); }
      else { assert Drop(order, id) == Drop(init, id); }
    } else {
      assert init[a] == x;
      DropKeeps(init, id, x);
      BeforeLast(Drop(init, id), x, y);
    }
  }

  lemma {:induction false} DropDistinct(order: seq<JournalId>, id: JournalId)
    requires Distinct(order)
    ensures Distinct(Drop(order, id))
  {
    if order != [] {
      var init := order[..|order| - 1];
      DropDistinct(init, id);
      DropKeeps(init, id, order[|order| - 1]);
    }
  }

  // ----- Inserting a journal -----

  lemma PlanFacts(ctx: Ctx, s: Spec)
    requires Plan(ctx, s).Ok?
    ensures var items := Plan(ctx, s).value;
            && items != [] && -1 <= SumDebit(items) - SumCredit(items) <= 1
            && forall i | i in items :: OneSided(i) && i.code != "" && i.code in ctx.codes && i.account == ctx.codes[i.code]
  {
    EnrichedItems(ctx.codes, s.dims, s.lines);
    EnrichedCodes(ctx.codes, s.dims, s.lines);
  }

  lemma {:induction false} EnrichedCodes(codes: map<string, AccountId>, h: HeaderDims, lines: seq<Line>)
    requires Enrich(codes, h, lines).Ok?
    ensures forall i | i in Enrich(codes, h, lines).value :: i.code != ""
  {
    if lines != [] { EnrichedCodes(codes, h, lines[..|lines| - 1]); }
  }

  lemma InsertedRows(t: Tables, ctx: Ctx, s: Spec, id: JournalId, number: string, items: seq<Item>, lost: set<AccountId>)
    requires RowsOk(t) && forall i | i in items :: OneSided(i) && i.code != "" && i.account in t.accounts
    ensures RowsOk(Inserted(t, ctx, s, id, number, items, lost))
  {
    forall r | r in t.rows + RowsFor(id, items)
      ensures r in t.rows || (r.journal == id && r.item in items)
    { InRowsFor(id, items, r); }
  }

  lemma InsertedOrder(t: Tables, ctx: Ctx, s: Spec, id: JournalId, number: string, items: seq<Item>, lost: set<AccountId>)
    requires OrderOk(t) && NumbersOk(t) && id !in t.journals && NumberFree(t, number)
    ensures var t' := Inserted(t, ctx, s, id, number, items, lost); OrderOk(t') && NumbersOk(t')
  {
    var t' := Inserted(t, ctx, s, id, number, items, lost);
    forall j, k | j in t'.journals && k in t'.journals && t'.journals[j].number == t'.journals[k].number
      ensures j == k
    {
      assert forall x | x in t.journals :: t.journals[x].number != number;
    }
  }

  lemma InsertedHeaders(t: Tables, ctx: Ctx, s: Spec, id: JournalId, number: string, items: seq<Item>, lost: set<AccountId>)
    requires RowsOk(t) && HeadersOk(t) && id !in t.journals
    requires items != [] && -1 <= SumDebit(items) - SumCredit(items) <= 1
    ensures var t' := Inserted(t, ctx, s, id, number, items, lost);
            HeadersOk(t') && ItemsOf(t'.rows, id) == items
  {
    var t' := Inserted(t, ctx, s, id, number, items, lost);
    ItemsOfAbsent(t.rows, id);
    ItemsOfAppend(t.rows, id, items, id);
    assert ItemsOf(t'.rows, id) == items;
    assert HeaderOk(t', id);
    forall k | k in t.journals ensures HeaderOk(t', k) {
      ItemsOfAppend(t.rows, id, items, k);
      assert ItemsOf(t'.rows, k) == ItemsOf(t.rows, k);
      assert HeaderOk(t, k);
    }
  }

  lemma InsertedLinks(t: Tables, ctx: Ctx, s: Spec, id: JournalId, number: string, items: seq<Item>, lost: set<AccountId>)
    requires LinksOk(t) && id !in t.journals
    ensures LinksOk(Inserted(t, ctx, s, id, number, items, lost))
  {
    var t' := Inserted(t, ctx, s, id, number, items, lost);
    forall k | k in t'.journals ensures LinkOk(t', k) {
      if k != id {
        assert LinkOk(t, k);
        if t.journals[k].reverses.Some? { BeforeAppend(t.order, id, t.journals[k].reverses.value, k); }
      }
    }
  }

  lemma InsertedStructure(t: Tables, ctx: Ctx, s: Spec, id: JournalId, number: string, lost: set<AccountId>)
    requires Structure(t) && Insertable(t, ctx, id, number) && Plan(ctx, s).Ok?
    ensures var t' := Inserted(t, ctx, s, id, number, Plan(ctx, s).value, lost);
            Structure(t') && ItemsOf(t'.rows, id) == Plan(ctx, s).value
  {
    var items := Plan(ctx, s).value;
    PlanFacts(ctx, s);
    InsertedRows(t, ctx, s, id, number, items, lost);
    InsertedOrder(t, ctx, s, id, number, items, lost);
    InsertedHeaders(t, ctx, s, id, number, items, lost);
    InsertedLinks(t, ctx, s, id, number, items, lost);
  }

  /** Exactly when an insertion keeps the balances: every lost update was a zero one. */
  lemma InsertedBalances(t: Tables, ctx: Ctx, s: Spec, id: JournalId, number: string, lost: set<AccountId>)
    requires RowsOk(t) && BalancesOk(t) && Insertable(t, ctx, id, number) && Plan(ctx, s).Ok?
    ensures var items := Plan(ctx, s).value;
            BalancesOk(Inserted(t, ctx, s, id, number, items, lost))
            <==> s.draft || forall a | a in lost && a in t.accounts :: NetOn(items, a) == 0
  {
    var items := Plan(ctx, s).value;
    var t' := Inserted(t, ctx, s, id, number, items, lost);
    var p, p' := PostedIds(t), PostedIds(t');
    assert p' == if s.draft then p else p + {id};
    forall a | a in t.accounts
      ensures NetOfJournals(t'.rows, p', a) == NetOfJournals(t.rows, p, a) + (if s.draft then 0 else NetOn(items, a))
    {
      NetOfJournalsAppend(t.rows, id, items, p', a);
      NetOfJournalsSame(t.rows, p, p', a);
    }
    if !s.draft {
      if BalancesOk(t') {
        forall a | a in lost && a in t.accounts ensures NetOn(items, a) == 0 {
          assert t'.accounts[a] == NetOfJournals(t'.rows, p', a);
        }
      }
    }
  }

  // ----- Changing the status of a journal -----

  lemma WithStatusStructure(t: Tables, id: JournalId, st: Status, approver: string, poster: string)
    requires Structure(t) && id in t.journals && t.journals[id].status != Posted && st != Draft
    ensures Structure(WithStatus(t, id, st, approver, poster))
  {
    var t' := WithStatus(t, id, st, approver, poster);
    assert LinkOk(t, id);
    forall k | k in t'.journals ensures HeaderOk(t', k) && LinkOk(t', k) {
      assert HeaderOk(t, k) && LinkOk(t, k);
      if t.journals[k].reverses.Some? { assert LinkOk(t, t.journals[k].reverses.value); }
      if t.journals[k].reversedBy.Some? { assert LinkOk(t, t.journals[k].reversedBy.value); }
    }
    forall j, k | j in t'.journals && k in t'.journals && t'.journals[j].number == t'.journals[k].number
      ensures j == k
    { assert t.journals[j].number == t.journals[k].number; }
  }

  /** Posting an existing journal with applyBalances keeps the balances. */
  lemma PostingBalances(t: Tables, id: JournalId, approver: string, poster: string)
    requires BalancesOk(t) && id in t.journals && t.journals[id].status != Posted
    ensures BalancesOk(WithStatus(t, id, Posted, approver, poster).(accounts := AddNets(t.accounts, ItemsOf(t.rows, id), {})))
  {
    var t' := WithStatus(t, id, Posted, approver, poster);
    assert PostedIds(t') == PostedIds(t) + {id};
    forall a | a in t.accounts
      ensures AddNets(t.accounts, ItemsOf(t.rows, id), {})[a] == NetOfJournals(t'.rows, PostedIds(t'), a)
    {
      NetOfJournalsGrow(t.rows, PostedIds(t), id, a);
    }
  }

  lemma DeletedRows(t: Tables, id: JournalId)
    requires RowsOk(t) && HeadersOk(t)
    ensures RowsOk(Deleted(t, id)) && HeadersOk(Deleted(t, id))
  {
    var t' := Deleted(t, id);
    forall r | r in t'.rows ensures r in t.rows && r.journal != id { InWithout(t.rows, id, r); }
    forall k | k in t'.journals ensures HeaderOk(t', k) {
      ItemsOfWithout(t.rows, id, k);
      assert HeaderOk(t, k);
    }
  }

  lemma DeletedOrder(t: Tables, id: JournalId)
    requires OrderOk(t) && NumbersOk(t)
    ensures OrderOk(Deleted(t, id)) && NumbersOk(Deleted(t, id))
  {
    DropDistinct(t.order, id);
    forall k ensures k in Drop(t.order, id) <==> k in t.order && k != id { DropKeeps(t.order, id, k); }
  }

  lemma DeletedLinks(t: Tables, id: JournalId)
    requires LinksOk(t) && id in t.journals && t.journals[id].status != Posted
    ensures LinksOk(Deleted(t, id))
  {
    var t' := Deleted(t, id);
    assert LinkOk(t, id);
    forall k | k in t'.journals ensures LinkOk(t', k) {
      assert LinkOk(t, k);
      var j := t.journals[k];
      if j.reverses.Some? { DropBefore(t.order, id, j.reverses.value, k); }
      if j.reversedBy.Some? { assert LinkOk(t, j.reversedBy.value); }
    }
  }

  lemma DeletedBalances(t: Tables, id: JournalId)
    requires BalancesOk(t) && id in t.journals && t.journals[id].status != Posted
    ensures BalancesOk(Deleted(t, id))
  {
    var t' := Deleted(t, id);
    assert PostedIds(t') == PostedIds(t);
    forall a | a in t'.accounts ensures t'.accounts[a] == NetOfJournals(t'.rows, PostedIds(t'), a) {
      NetOfJournalsWithout(t.rows, PostedIds(t), id, a);
    }
  }

  // ----- Reversal -----

  /** The plan of a reversal is the stored list with its sides swapped. */
  lemma ReversalPlan(t: Tables, ctx: Ctx, id: JournalId, date: Date, actor: string)
    requires Structure(t) && id in t.journals
    requires Plan(ctx, ReversalSpec(id, ItemsOf(t.rows, id), date, actor)).Ok?
    ensures var items := ItemsOf(t.rows, id);
            && (forall i | i in items :: OneSided(i) && i.code in ctx.codes)
            && Plan(ctx, ReversalSpec(id, items, date, actor)).value == Mirrored(ctx.codes, items)
  {
    var items := ItemsOf(t.rows, id);
    forall i | i in items ensures OneSided(i) && i.code != "" { InItemsOf(t.rows, id, i); }
    MirrorAccepted(ctx.codes, items);
    EnrichMirror(ctx.codes, items);
  }

  /** A posted pair that mirrors each other and is not linked yet. */
  predicate Linkable(t: Tables, id: JournalId, newId: JournalId) {
    && id in t.journals && newId in t.journals && id != newId
    && t.journals[id].status == Posted && t.journals[newId].status == Posted
    && t.journals[id].reversedBy.None? && t.journals[newId].reversedBy.None? && t.journals[newId].reverses.None?
    && t.journals[newId].totalDebit == t.journals[id].totalCredit
    && t.journals[newId].totalCredit == t.journals[id].totalDebit
    && Before(t.order, id, newId)
  }

  lemma LinkedLinks(t: Tables, id: JournalId, newId: JournalId)
    requires LinksOk(t) && Linkable(t, id, newId)
    ensures LinksOk(Linked(t, id, newId))
  {
    var t' := Linked(t, id, newId);
    forall k | k in t'.journals ensures LinkOk(t', k) {
      assert LinkOk(t, k);
      if t.journals[k].reverses.Some? { assert t.journals[k].reverses.value != id; }
      if t.journals[k].reversedBy.Some? { assert LinkOk(t, t.journals[k].reversedBy.value); }
    }
  }

  lemma LinkedHeaders(t: Tables, id: JournalId, newId: JournalId)
    requires HeadersOk(t) && NumbersOk(t) && id in t.journals && newId in t.journals
    ensures HeadersOk(Linked(t, id, newId)) && NumbersOk(Linked(t, id, newId))
  {
    var t' := Linked(t, id, newId);
    forall k | k in t'.journals
      ensures k in t.journals && t'.journals[k].number == t.journals[k].number && HeaderOk(t', k)
    { assert HeaderOk(t, k); }
  }

  lemma LinkedStructure(t: Tables, id: JournalId, newId: JournalId)
    requires Structure(t) && Linkable(t, id, newId)
    ensures Structure(Linked(t, id, newId)) && PostedIds(Linked(t, id, newId)) == PostedIds(t)
  {
    LinkedLinks(t, id, newId);
    LinkedHeaders(t, id, newId);
    assert Linked(t, id, newId).journals.Keys == t.journals.Keys;
  }

  function SpecOf(t: Tables, e: Event): Spec
    requires e.Post? || e.Reverse?
  { if e.Post? then e.spec else ReversalSpec(e.id, ItemsOf(t.rows, e.id), e.date, ReverserOf(e.user)) }

  function InsertedBy(t: Tables, e: Event): Tables
    requires (e.Post? || e.Reverse?) && Enabled(t, e)
  { Inserted(t, e.ctx, SpecOf(t, e), e.newId, e.number, Plan(e.ctx, SpecOf(t, e)).value, e.lost) }

  /** The freshly posted reversal and its original mirror each other and may be linked. */
  lemma ReversedPair(t: Tables, e: Event)
    requires Structure(t) && e.Reverse? && Enabled(t, e)
    ensures Structure(InsertedBy(t, e)) && Linkable(InsertedBy(t, e), e.id, e.newId)
  {
    ReversalPlan(t, e.ctx, e.id, e.date, ReverserOf(e.user));
    MirroredSums(e.ctx.codes, ItemsOf(t.rows, e.id));
    InsertedStructure(t, e.ctx, SpecOf(t, e), e.newId, e.number, e.lost);
    BeforeLast(t.order, e.id, e.newId);
    assert HeaderOk(t, e.id);
  }

  lemma StampKeeps(t: Tables, action: string, id: JournalId, actor: string)
    ensures var t' := Stamped(t, action, id, actor);
            (Structure(t') <==> Structure(t)) && (BalancesOk(t') <==> BalancesOk(t))
  {
    var t' := Stamped(t, action, id, actor);
    assert PostedIds(t') == PostedIds(t);
    assert HeadersOk(t') <==> HeadersOk(t) by {
      forall k | k in t.journals ensures HeaderOk(t, k) <==> HeaderOk(t', k) {}
    }
    assert LinksOk(t') <==> LinksOk(t) by {
      forall k | k in t.journals ensures LinkOk(t, k) <==> LinkOk(t', k) {}
    }
  }

  // ----- Every operation, every run -----

  /** Posting a stored journal: status, balances and audit row together. */
  lemma PostKeeps(t: Tables, id: JournalId, approver: string, poster: string, action: string, actor: string)
    requires Structure(t) && id in t.journals && t.journals[id].status != Posted
    ensures var t' := Stamped(WithStatus(t, id, Posted, approver, poster)
                                .(accounts := AddNets(t.accounts, ItemsOf(t.rows, id), {})), action, id, actor);
            Structure(t') && (BalancesOk(t) ==> BalancesOk(t'))
  {
    var s := WithStatus(t, id, Posted, approver, poster);
    WithStatusStructure(t, id, Posted, approver, poster);
    var t' := s.(accounts := AddNets(t.accounts, ItemsOf(t.rows, id), {}));
    forall k | k in t'.journals ensures HeaderOk(t', k) && LinkOk(t', k) { assert HeaderOk(s, k) && LinkOk(s, k); }
    if BalancesOk(t) { PostingBalances(t, id, approver, poster); }
    StampKeeps(t', action, id, actor);
  }

  lemma ApproveKeeps(t: Tables, id: JournalId, u: User)
    requires Structure(t) && Enabled(t, Approve(id, u))
    ensures var t' := Apply(t, Approve(id, u));
            Structure(t') && (BalancesOk(t) ==> BalancesOk(t'))
  {
    var t' := WithStatus(t, id, Approved, ActorOf(u), t.journals[id].postedBy);
    WithStatusStructure(t, id, Approved, ActorOf(u), t.journals[id].postedBy);
    assert PostedIds(t') == PostedIds(t);
    StampKeeps(t', "approve_journal", id, ActorOf(u));
  }

  lemma ReverseKeeps(t: Tables, e: Event)
    requires Structure(t) && e.Reverse? && Enabled(t, e)
    ensures Structure(Apply(t, e))
  {
    ReversedPair(t, e);
    LinkedStructure(InsertedBy(t, e), e.id, e.newId);
    StampKeeps(Linked(InsertedBy(t, e), e.id, e.newId), "reverse_journal", e.id, ReverserOf(e.user));
  }

  lemma DeleteKeeps(t: Tables, e: Event)
    requires Structure(t) && e.Delete? && Enabled(t, e)
    ensures Structure(Apply(t, e))
  {
    DeletedRows(t, e.id);
    DeletedOrder(t, e.id);
    DeletedLinks(t, e.id);
    StampKeeps(Deleted(t, e.id), "delete_journal", e.id, ActorOf(e.user));
  }

  /** Whatever statements fail, the tables stay well formed: headers, rows, numbers and links. */
  lemma StepStructure(t: Tables, e: Event)
    requires Structure(t) && Enabled(t, e)
    ensures Structure(Apply(t, e))
  {
    match e
    case Post(ctx, spec, id, number, lost) => InsertedStructure(t, ctx, spec, id, number, lost);
    case Approve(id, u) => ApproveKeeps(t, id, u);
    case PostApproved(_, id, u, _) =>
      PostKeeps(t, id, t.journals[id].approvedBy, ActorOf(u), "post_journal", ActorOf(u));
    case ApprovePost(_, id, u, _) =>
      PostKeeps(t, id, ActorOf(u), ActorOf(u), "approve_post_journal", ActorOf(u));
    case Delete(_, _) => DeleteKeeps(t, e);
    case Reverse(_, _, _, _, _, _, _) => ReverseKeeps(t, e);
  }

  /** The balance updates an insertion lost, if any, would not have moved a balance. */
  predicate HarmlessLoss(t: Tables, e: Event) {
    (e.Post? && !e.spec.draft) || e.Reverse? ==>
      forall a | a in e.lost && a in t.accounts ::
        Plan(e.ctx, SpecOf(t, e)).Ok? ==> NetOn(Plan(e.ctx, SpecOf(t, e)).value, a) == 0
  }

  /**
   * An operation keeps every balance equal to its posted entries if and only if no balance update
   * that mattered was lost to a swallowed error (lib/glPosting.js:583-593).
   */
  lemma StepBalances(t: Tables, e: Event)
    requires Inv(t) && Enabled(t, e)
    ensures BalancesOk(Apply(t, e)) <==> HarmlessLoss(t, e)
  {
    match e
    case Post(ctx, spec, id, number, lost) => InsertedBalances(t, ctx, spec, id, number, lost);
    case Approve(id, u) => ApproveKeeps(t, id, u);
    case PostApproved(_, id, u, _) =>
      PostKeeps(t, id, t.journals[id].approvedBy, ActorOf(u), "post_journal", ActorOf(u));
    case ApprovePost(_, id, u, _) =>
      PostKeeps(t, id, ActorOf(u), ActorOf(u), "approve_post_journal", ActorOf(u));
    case Delete(id, u) =>
      DeletedBalances(t, id);
      StampKeeps(Deleted(t, id), "delete_journal", id, ActorOf(u));
    case Reverse(ctx, id, u, _, newId, number, lost) =>
      InsertedBalances(t, ctx, SpecOf(t, e), newId, number, lost);
      ReversedPair(t, e);
      LinkedStructure(InsertedBy(t, e), id, newId);
      StampKeeps(Linked(InsertedBy(t, e), id, newId), "reverse_journal", id, ReverserOf(u));
  }

  lemma StepKeeps(t: Tables, e: Event)
    requires Inv(t) && Enabled(t, e) && (e.Post? || e.Reverse? ==> e.lost == {})
    ensures Inv(Apply(t, e))
  {
    StepStructure(t, e);
    StepBalances(t, e);
  }

  /** A ledger with a chart of accounts and no journals. */
  ghost predicate Fresh(t: Tables) {
    t.journals == map[] && t.order == [] && t.rows == [] && forall a | a in t.accounts :: t.accounts[a] == 0
  }

  lemma FreshInv(t: Tables)
    requires Fresh(t)
    ensures Inv(t)
  {}

  // ----- A lost update, step by step -----

  const NO_DIMS := Dims("", "", "", "", "", "", "")
  const TWO_ACCOUNTS := Tables(map["cash" := 0, "sales" := 0], map[], [], [], [])
  const SMALL_CHART := Ctx(map["1100" := "cash", "4100" := "sales"], [], 20250101, false)
  const ONE_SALE := Spec(20250101, "", "", [Line("1100", 100, 0, NO_DIMS), Line("4100", 0, 100, NO_DIMS)], NO_HEADER, false, "u")

  /** One posted sale of 100 halalas whose cash update fails with a swallowed error: the header is stored, the cash is not. */
  lemma LostUpdateBreaks()
    ensures var e := Post(SMALL_CHART, ONE_SALE, "j1", "JV-20250101-0001", {"cash"});
            && Fresh(TWO_ACCOUNTS) && Enabled(TWO_ACCOUNTS, e)
            && Structure(Apply(TWO_ACCOUNTS, e)) && !BalancesOk(Apply(TWO_ACCOUNTS, e))
  {
    var e := Post(SMALL_CHART, ONE_SALE, "j1", "JV-20250101-0001", {"cash"});
    var items := [Item("cash", "1100", 100, 0, NO_DIMS), Item("sales", "4100", 0, 100, NO_DIMS)];
    OneSaleAccepted(items);
    assert Enabled(TWO_ACCOUNTS, e);
    StepStructure(TWO_ACCOUNTS, e);
    assert items[..1] == [items[0]] && items[..1][..0] == [];
    assert items[1].account == "sales";
    assert NetOn(items[..1], "cash") == NetOn([], "cash") + 100;
    assert NetOn(items, "cash") == NetOn(items[..1], "cash");
    assert "cash" in e.lost && "cash" in TWO_ACCOUNTS.accounts;
    assert !HarmlessLoss(TWO_ACCOUNTS, e);
    StepBalances(TWO_ACCOUNTS, e);
  }

  lemma OneSaleAccepted(items: seq<Item>)
    requires items == [Item("cash", "1100", 100, 0, NO_DIMS), Item("sales", "4100", 0, 100, NO_DIMS)]
    ensures Plan(SMALL_CHART, ONE_SALE) == Ok(items)
  {
    var lines := ONE_SALE.lines;
    assert lines[..1] == [lines[0]] && lines[..1][..0] == [];
    var one := [items[0]];
    assert Accept(SMALL_CHART.codes, NO_HEADER, lines[0]) == Ok(one);
    assert Accept(SMALL_CHART.codes, NO_HEADER, lines[1]) == Ok([items[1]]);
    assert Enrich(SMALL_CHART.codes, NO_HEADER, []) == Ok([]) && [] + one == one;
    assert Enrich(SMALL_CHART.codes, NO_HEADER, lines[..1]) == Ok(one);
    assert items == one + [items[1]];
    assert items[..1] == one && one[..0] == [];
    assert SumDebit(one) == 100 && SumDebit(items) == 100;
    assert SumCredit(one) == 0 && SumCredit(items) == 100;
  }
}
