/**
 * The statements of each ledger operation in order; run alone they are the operation
 * (lib/glPosting.js:534-659, lib/glTransitions.js:161-379).
 */
module LedgerScripts {
  import opened Text
  import opened LedgerTables
  import opened LedgerSums
  import opened LedgerInvariant
  import opened LedgerStore

  // ----- The statements that go through -----

  function Kept(keys: seq<AccountId>, lost: set<AccountId>): (r: seq<AccountId>)
    ensures forall a :: a in r <==> a in keys && a !in lost
  {
    if keys == [] then []
    else
      var n := |keys| - 1;
      assert keys == keys[..n] + [keys[n]];
      Kept(keys[..n], lost) + (if keys[n] in lost then [] else [keys[n]])
  }

  function NetUpdates(keys: seq<AccountId>, items: seq<Item>): (r: seq<Stmt>)
    ensures |r| == |keys|
  { seq(|keys|, i requires 0 <= i < |keys| => AddBalance(keys[i], NetOn(items, keys[i]))) }

  function EntryUpdates(items: seq<Item>): (r: seq<Stmt>)
    ensures |r| == |items|
  { seq(|items|, i requires 0 <= i < |items| => AddBalance(items[i].account, items[i].debit - items[i].credit)) }

  function EntryInserts(id: JournalId, items: seq<Item>): (r: seq<Stmt>)
    ensures |r| == |items|
  { seq(|items|, i requires 0 <= i < |items| => InsertEntry(Row(id, items[i]))) }

  /** Header, netted balances but for the lost ones, entries. */
  function PostScript(ctx: Ctx, s: Spec, id: JournalId, number: string, items: seq<Item>, lost: set<AccountId>): seq<Stmt> {
    [InsertHeader(id, NewJournal(ctx, s, number, items))]
    + ((if s.draft then [] else NetUpdates(Kept(SortSet(Accounts(items)), lost), items)) + EntryInserts(id, items))
  }

  function Script(t: Tables, e: Event): seq<Stmt>
    requires Enabled(t, e)
  {
    match e
    case Post(ctx, spec, id, number, lost) => PostScript(ctx, spec, id, number, Plan(ctx, spec).value, lost)
    case Approve(id, u) => [SetApproved(id, ActorOf(u)), InsertAudit(Audit("approve_journal", id, ActorOf(u)))]
    case PostApproved(_, id, u, _) =>
      EntryUpdates(SortByAccount(ItemsOf(t.rows, id)))
      + [SetPosted(id, ActorOf(u)), InsertAudit(Audit("post_journal", id, ActorOf(u)))]
    case ApprovePost(_, id, u, _) =>
      [SetApproved(id, ActorOf(u))]
      + (EntryUpdates(SortByAccount(ItemsOf(t.rows, id)))
         + [SetPosted(id, ActorOf(u)), InsertAudit(Audit("approve_post_journal", id, ActorOf(u)))])
    case Delete(id, u) => [DeleteEntries(id), DeleteHeader(id), InsertAudit(Audit("delete_journal", id, ActorOf(u)))]
    case Reverse(ctx, id, u, date, newId, number, lost) =>
      PostScript(ctx, SpecOf(t, e), newId, number, Plan(ctx, SpecOf(t, e)).value, lost)
      + LinkScript(id, newId, ReverserOf(u))
  }

  function LinkScript(id: JournalId, newId: JournalId, actor: string): seq<Stmt> {
    [SetReversedBy(id, newId), SetReverses(newId, id), InsertAudit(Audit("reverse_journal", id, actor))]
  }

  // ----- Run alone, they are the operation -----

  lemma {:induction false} EffectConcat(t: Tables, x: seq<Stmt>, y: seq<Stmt>)
    ensures EffectAll(t, x + y) == EffectAll(EffectAll(t, x), y)
  {
    if y == [] {
      assert x + y == x;
    } else {
      assert (x + y)[..|x + y| - 1] == x + y[..|y| - 1];
      EffectConcat(t, x, y[..|y| - 1]);
    }
  }

  lemma OneEffect(t: Tables, s: Stmt)
    ensures EffectAll(t, [s]) == Effect(t, s)
  { assert [s][..0] == []; }

  lemma {:induction false} NetUpdatesEffect(t: Tables, keys: seq<AccountId>, items: seq<Item>)
    requires forall i, j | 0 <= i < j < |keys| :: keys[i] != keys[j]
    ensures EffectAll(t, NetUpdates(keys, items)) == t.(accounts := Partly(t.accounts, items, keys, {}))
  {
    if keys == [] {
      assert Partly(t.accounts, items, keys, {}) == t.accounts;
    } else {
      var n := |keys| - 1;
      NetUpdatesEffect(t, keys[..n], items);
      assert NetUpdates(keys, items)[..n] == NetUpdates(keys[..n], items);
      assert keys == keys[..n] + [keys[n]] && keys[n] !in keys[..n];
      PartlyDone(t.accounts, items, keys[..n], keys[n], {});
    }
  }

  lemma {:induction false} KeptDistinct(keys: seq<AccountId>, lost: set<AccountId>)
    requires forall i, j | 0 <= i < j < |keys| :: keys[i] != keys[j]
    ensures forall i, j | 0 <= i < j < |Kept(keys, lost)| :: Kept(keys, lost)[i] != Kept(keys, lost)[j]
  {
    if keys != [] {
      var n := |keys| - 1;
      KeptDistinct(keys[..n], lost);
      assert keys[n] !in keys[..n];
      assert forall i | 0 <= i < |Kept(keys[..n], lost)| :: Kept(keys[..n], lost)[i] in Kept(keys[..n], lost);
    }
  }

  /** Updating the accounts that are not lost amounts to the netted effect without the lost ones. */
  lemma KeptNets(accounts: map<AccountId, int>, items: seq<Item>, keys: seq<AccountId>, lost: set<AccountId>)
    requires forall a :: a in keys <==> a in Accounts(items) && a !in lost
    ensures Partly(accounts, items, keys, {}) == AddNets(accounts, items, lost)
  {
    var x, y := Partly(accounts, items, keys, {}), AddNets(accounts, items, lost);
    forall a | a in accounts ensures x[a] == y[a] {
      if a !in Accounts(items) { NetOffAccounts(items, a); }
    }
  }

  lemma NetsEffect(t: Tables, items: seq<Item>, lost: set<AccountId>)
    ensures EffectAll(t, NetUpdates(Kept(SortSet(Accounts(items)), lost), items)) == t.(accounts := AddNets(t.accounts, items, lost))
  {
    var keys := Kept(SortSet(Accounts(items)), lost);
    KeptDistinct(SortSet(Accounts(items)), lost);
    NetUpdatesEffect(t, keys, items);
    KeptNets(t.accounts, items, keys, lost);
  }

  lemma {:induction false} EntryUpdatesEffect(t: Tables, items: seq<Item>)
    ensures EffectAll(t, EntryUpdates(items)) == t.(accounts := AddNets(t.accounts, items, {}))
  {
    if items == [] {
      assert AddNets(t.accounts, items, {}) == t.accounts;
    } else {
      var n := |items| - 1;
      EntryUpdatesEffect(t, items[..n]);
      assert EntryUpdates(items)[..n] == EntryUpdates(items[..n]);
      assert items == items[..n] + [items[n]];
      AddNetsSnoc(t.accounts, items[..n], items[n]);
    }
  }

  lemma {:induction false} EntryInsertsEffect(t: Tables, id: JournalId, items: seq<Item>)
    ensures EffectAll(t, EntryInserts(id, items)) == t.(rows := t.rows + RowsFor(id, items))
  {
    if items == [] {
      assert t.rows + RowsFor(id, items) == t.rows;
    } else {
      var n := |items| - 1;
      EntryInsertsEffect(t, id, items[..n]);
      assert EntryInserts(id, items)[..n] == EntryInserts(id, items[..n]);
      assert RowsFor(id, items) == RowsFor(id, items[..n]) + [Row(id, items[n])];
    }
  }

  lemma PostScriptEffect(t: Tables, ctx: Ctx, s: Spec, id: JournalId, number: string, items: seq<Item>, lost: set<AccountId>)
    ensures EffectAll(t, PostScript(ctx, s, id, number, items, lost)) == Inserted(t, ctx, s, id, number, items, lost)
  {
    var header := InsertHeader(id, NewJournal(ctx, s, number, items));
    var nets := if s.draft then [] else NetUpdates(Kept(SortSet(Accounts(items)), lost), items);
    EffectConcat(t, [header], nets + EntryInserts(id, items));
    OneEffect(t, header);
    var mid := Effect(t, header);
    EffectConcat(mid, nets, EntryInserts(id, items));
    if !s.draft { NetsEffect(mid, items, lost); }
    EntryInsertsEffect(EffectAll(mid, nets), id, items);
  }

  lemma PostingEffect(t: Tables, id: JournalId, actor: string, action: string)
    requires id in t.journals
    ensures EffectAll(t, EntryUpdates(SortByAccount(ItemsOf(t.rows, id))) + [SetPosted(id, actor), InsertAudit(Audit(action, id, actor))])
         == PostedForm(t, id, actor, action)
  {
    var entries, tail := SortByAccount(ItemsOf(t.rows, id)), [SetPosted(id, actor), InsertAudit(Audit(action, id, actor))];
    EffectConcat(t, EntryUpdates(entries), tail);
    EntryUpdatesEffect(t, entries);
    SortedNets(t.accounts, ItemsOf(t.rows, id));
    TwoEffects(EffectAll(t, EntryUpdates(entries)), tail[0], tail[1]);
  }

  lemma LinkedInTwo(t: Tables, id: JournalId, newId: JournalId)
    requires id in t.journals && newId in t.journals
    ensures Effect(Effect(t, SetReversedBy(id, newId)), SetReverses(newId, id)) == Linked(t, id, newId)
  {}

  lemma LinksEffect(t: Tables, id: JournalId, newId: JournalId, actor: string)
    requires id in t.journals && newId in t.journals
    ensures EffectAll(t, LinkScript(id, newId, actor)) == Stamped(Linked(t, id, newId), "reverse_journal", id, actor)
  {
    var stamp := InsertAudit(Audit("reverse_journal", id, actor));
    var l := Linked(t, id, newId);
    assert Effect(l, stamp) == Stamped(l, "reverse_journal", id, actor);
    LinkedInTwo(t, id, newId);
    ThreeEffects(t, SetReversedBy(id, newId), SetReverses(newId, id), stamp);
  }

  lemma ReverseScriptEffect(t: Tables, ctx: Ctx, id: JournalId, u: User, date: Date, newId: JournalId, number: string, lost: set<AccountId>)
    requires Enabled(t, Reverse(ctx, id, u, date, newId, number, lost))
    ensures var e := Reverse(ctx, id, u, date, newId, number, lost); EffectAll(t, Script(t, e)) == Apply(t, e)
  {
    var spec := ReversalSpec(id, ItemsOf(t.rows, id), date, ReverserOf(u));
    PostedThenLinked(t, ctx, spec, id, newId, number, Plan(ctx, spec).value, lost, ReverserOf(u));
  }

  lemma PostedThenLinked(t: Tables, ctx: Ctx, s: Spec, id: JournalId, newId: JournalId, number: string, items: seq<Item>,
                         lost: set<AccountId>, actor: string)
    requires id in t.journals
    ensures var posted := Inserted(t, ctx, s, newId, number, items, lost);
            EffectAll(t, PostScript(ctx, s, newId, number, items, lost) + LinkScript(id, newId, actor))
            == Stamped(Linked(posted, id, newId), "reverse_journal", id, actor)
  {
    var posted := Inserted(t, ctx, s, newId, number, items, lost);
    PostScriptEffect(t, ctx, s, newId, number, items, lost);
    LinksEffect(posted, id, newId, actor);
    AfterBoth(t, PostScript(ctx, s, newId, number, items, lost), LinkScript(id, newId, actor), posted,
              Stamped(Linked(posted, id, newId), "reverse_journal", id, actor));
  }

  lemma AfterBoth(t: Tables, x: seq<Stmt>, y: seq<Stmt>, mid: Tables, end: Tables)
    requires EffectAll(t, x) == mid && EffectAll(mid, y) == end
    ensures EffectAll(t, x + y) == end
  { EffectConcat(t, x, y); }

  /** An operation is its statements, one after the other. */
  lemma ScriptEffect(t: Tables, e: Event)
    requires Enabled(t, e)
    ensures EffectAll(t, Script(t, e)) == Apply(t, e)
  {
    match e
    case Post(ctx, spec, id, number, lost) => PostScriptEffect(t, ctx, spec, id, number, Plan(ctx, spec).value, lost);
    case Approve(id, u) =>
      TwoEffects(t, SetApproved(id, ActorOf(u)), InsertAudit(Audit("approve_journal", id, ActorOf(u))));
    case PostApproved(_, id, u, _) => PostingEffect(t, id, ActorOf(u), "post_journal");
    case ApprovePost(ctx, id, u, force) =>
      var first := SetApproved(id, ActorOf(u));
      ApprovePostEffect(t, ctx, id, u, force);
      PostingEffect(Effect(t, first), id, ActorOf(u), "approve_post_journal");
      OneEffect(t, first);
      EffectConcat(t, [first], Script(t, e)[1..]);
      assert Script(t, e) == [first] + Script(t, e)[1..];
    case Delete(id, u) =>
      ThreeEffects(t, DeleteEntries(id), DeleteHeader(id), InsertAudit(Audit("delete_journal", id, ActorOf(u))));
    case Reverse(ctx, id, u, date, newId, number, lost) => ReverseScriptEffect(t, ctx, id, u, date, newId, number, lost);
  }
}
