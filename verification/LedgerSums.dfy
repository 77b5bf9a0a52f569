/** Sums over entries: what appending, posting and deleting rows does to them. */
module LedgerSums {
  import opened LedgerTables

  /** Debit minus credit over the entries of the journals in `ids` on one account. */
  function NetOfJournals(rows: seq<Row>, ids: set<JournalId>, a: AccountId): int {
    if rows == [] then 0
    else
      var r := rows[|rows| - 1];
      NetOfJournals(rows[..|rows| - 1], ids, a)
      + (if r.journal in ids && r.item.account == a then r.item.debit - r.item.credit else 0)
  }

  function PostedIds(t: Tables): set<JournalId> {
    set k | k in t.journals && t.journals[k].status == Posted
  }

  lemma {:induction false} NetOnConcat(x: seq<Item>, y: seq<Item>, a: AccountId)
    ensures NetOn(x + y, a) == NetOn(x, a) + NetOn(y, a)
  {
    if y == [] {
      assert x + y == x;
    } else {
      assert (x + y)[..|x + y| - 1] == x + y[..|y| - 1];
      NetOnConcat(x, y[..|y| - 1], a);
    }
  }

  lemma {:induction false} NetOfJournalsAppend(rows: seq<Row>, id: JournalId, items: seq<Item>, ids: set<JournalId>, a: AccountId)
    ensures NetOfJournals(rows + RowsFor(id, items), ids, a)
         == NetOfJournals(rows, ids, a) + (if id in ids then NetOn(items, a) else 0)
  {
    if items == [] {
      assert rows + RowsFor(id, items) == rows;
    } else {
      var all := rows + RowsFor(id, items);
      assert all[..|all| - 1] == rows + RowsFor(id, items[..|items| - 1]);
      NetOfJournalsAppend(rows, id, items[..|items| - 1], ids, a);
    }
  }

  /** Posting one more journal adds exactly the net of its entries. */
  lemma {:induction false} NetOfJournalsGrow(rows: seq<Row>, ids: set<JournalId>, id: JournalId, a: AccountId)
    requires id !in ids
    ensures NetOfJournals(rows, ids + {id}, a) == NetOfJournals(rows, ids, a) + NetOn(ItemsOf(rows, id), a)
  {
    if rows != [] {
      var r := rows[|rows| - 1];
      NetOfJournalsGrow(rows[..|rows| - 1], ids, id, a);
      NetOnConcat(ItemsOf(rows[..|rows| - 1], id), if r.journal == id then [r.item] else [], a);
      assert NetOn([r.item], a) == if r.item.account == a then r.item.debit - r.item.credit else 0 by {
        assert [r.item][..0] == [];
      }
    }
  }

  lemma {:induction false} NetOfJournalsWithout(rows: seq<Row>, ids: set<JournalId>, id: JournalId, a: AccountId)
    requires id !in ids
    ensures NetOfJournals(Without(rows, id), ids, a) == NetOfJournals(rows, ids, a)
  {
    if rows != [] {
      var w := Without(rows[..|rows| - 1], id);
      var r := rows[|rows| - 1];
      NetOfJournalsWithout(rows[..|rows| - 1], ids, id, a);
      if r.journal != id { assert (w + [r])[..|w|] == w; } else { assert Without(rows, id) == w; }
    }
  }

  /** Only the journals that own rows matter. */
  lemma {:induction false} NetOfJournalsSame(rows: seq<Row>, ids: set<JournalId>, ids': set<JournalId>, a: AccountId)
    requires forall r | r in rows :: r.journal in ids <==> r.journal in ids'
    ensures NetOfJournals(rows, ids, a) == NetOfJournals(rows, ids', a)
  {
    if rows != [] {
      forall r | r in rows[..|rows| - 1] ensures r in rows {}
      NetOfJournalsSame(rows[..|rows| - 1], ids, ids', a);
    }
  }

  lemma {:induction false} ItemsOfAppend(rows: seq<Row>, id: JournalId, items: seq<Item>, k: JournalId)
    ensures ItemsOf(rows + RowsFor(id, items), k) == ItemsOf(rows, k) + (if k == id then items else [])
  {
    if items == [] {
      assert rows + RowsFor(id, items) == rows;
    } else {
      var all := rows + RowsFor(id, items);
      assert all[..|all| - 1] == rows + RowsFor(id, items[..|items| - 1]);
      ItemsOfAppend(rows, id, items[..|items| - 1], k);
      assert items == items[..|items| - 1] + [items[|items| - 1]];
    }
  }

  lemma {:induction false} ItemsOfWithout(rows: seq<Row>, id: JournalId, k: JournalId)
    ensures ItemsOf(Without(rows, id), k) == if k == id then [] else ItemsOf(rows, k)
  {
    if rows != [] {
      var w := Without(rows[..|rows| - 1], id);
      var r := rows[|rows| - 1];
      ItemsOfWithout(rows[..|rows| - 1], id, k);
      if r.journal != id { assert (w + [r])[..|w|] == w; } else { assert Without(rows, id) == w; }
    }
  }

  lemma {:induction false} ItemsOfAbsent(rows: seq<Row>, id: JournalId)
    requires forall r | r in rows :: r.journal != id
    ensures ItemsOf(rows, id) == []
  {
    if rows != [] {
      forall r | r in rows[..|rows| - 1] ensures r in rows {}
      ItemsOfAbsent(rows[..|rows| - 1], id);
    }
  }

  lemma {:induction false} InItemsOf(rows: seq<Row>, id: JournalId, i: Item)
    ensures i in ItemsOf(rows, id) <==> Row(id, i) in rows
  {
    if rows != [] {
      InItemsOf(rows[..|rows| - 1], id, i);
      assert rows == rows[..|rows| - 1] + [rows[|rows| - 1]];
    }
  }

  lemma {:induction false} InWithout(rows: seq<Row>, id: JournalId, r: Row)
    ensures r in Without(rows, id) <==> r in rows && r.journal != id
  {
    if rows != [] {
      InWithout(rows[..|rows| - 1], id, r);
      assert rows == rows[..|rows| - 1] + [rows[|rows| - 1]];
    }
  }

  lemma InRowsFor(id: JournalId, items: seq<Item>, r: Row)
    ensures r in RowsFor(id, items) <==> r.journal == id && r.item in items
  {
    if r.journal == id && r.item in items {
      var i :| 0 <= i < |items| && items[i] == r.item;
      assert RowsFor(id, items)[i] == r;
    }
  }

  // ----- Sum of all balances -----

  ghost function SumBalances(m: map<AccountId, int>): int
    decreases |m|
  {
    if m == map[] then 0
    else
      var a :| a in m;
      m[a] + SumBalances(m - {a})
  }

  /** The sum does not depend on which account is taken first. */
  lemma {:induction false} SumBalancesTake(m: map<AccountId, int>, a: AccountId)
    requires a in m
    ensures SumBalances(m) == m[a] + SumBalances(m - {a})
    decreases |m|
  {
    var b :| b in m && SumBalances(m) == m[b] + SumBalances(m - {b});
    if b != a {
      SumBalancesTake(m - {b}, a);
      SumBalancesTake(m - {a}, b);
      assert m - {b} - {a} == m - {a} - {b};
    }
  }

  lemma SumBalancesUpdate(m: map<AccountId, int>, a: AccountId, v: int)
    requires a in m
    ensures SumBalances(m[a := v]) == SumBalances(m) - m[a] + v
  {
    SumBalancesTake(m, a);
    SumBalancesTake(m[a := v], a);
    assert m[a := v] - {a} == m - {a};
  }

  /** One item after the others: the per-line view of AddNets. */
  lemma AddNetsSnoc(accounts: map<AccountId, int>, items: seq<Item>, i: Item)
    ensures AddNets(accounts, items + [i], {})
         == AddOne(AddNets(accounts, items, {}), i.account, i.debit - i.credit)
  {
    assert (items + [i])[..|items|] == items;
  }

  /** UPDATE gl_accounts SET balance = balance + ? WHERE id = ? */
  function AddOne(accounts: map<AccountId, int>, a: AccountId, delta: int): map<AccountId, int> {
    if a in accounts then accounts[a := accounts[a] + delta] else accounts
  }

  lemma {:induction false} SumBalancesAddNets(accounts: map<AccountId, int>, items: seq<Item>)
    requires forall i | i in items :: i.account in accounts
    ensures SumBalances(AddNets(accounts, items, {})) == SumBalances(accounts) + SumDebit(items) - SumCredit(items)
  {
    if items == [] {
      assert AddNets(accounts, items, {}) == accounts;
    } else {
      var init, i := items[..|items| - 1], items[|items| - 1];
      assert items == init + [i];
      SumBalancesAddNets(accounts, init);
      AddNetsSnoc(accounts, init, i);
      SumBalancesUpdate(AddNets(accounts, init, {}), i.account,
                        AddNets(accounts, init, {})[i.account] + (i.debit - i.credit));
    }
  }

  // ----- Accepted items -----

  predicate OneSided(i: Item) { (i.debit > 0 && i.credit == 0) || (i.debit == 0 && i.credit > 0) }

  /** Everything Enrich lets through is one-sided and on a resolved account. */
  lemma {:induction false} EnrichedItems(codes: map<string, AccountId>, h: HeaderDims, lines: seq<Line>)
    requires Enrich(codes, h, lines).Ok?
    ensures forall i | i in Enrich(codes, h, lines).value :: OneSided(i) && i.code in codes && i.account == codes[i.code]
  {
    if lines != [] {
      EnrichedItems(codes, h, lines[..|lines| - 1]);
    }
  }

  /** A list of nonzero lines is accepted line by line. */
  lemma {:induction false} EnrichMirror(codes: map<string, AccountId>, items: seq<Item>)
    requires forall i | i in items :: OneSided(i) && i.code != "" && i.code in codes
    ensures Enrich(codes, NO_HEADER, MirrorLines(items)) == Ok(Mirrored(codes, items))
  {
    if items != [] {
      var init := items[..|items| - 1];
      forall i | i in init ensures i in items {}
      EnrichMirror(codes, init);
      assert MirrorLines(items)[..|items| - 1] == MirrorLines(init);
      assert Mirrored(codes, items) == Mirrored(codes, init) + [MirrorItem(codes, items[|items| - 1])];
    } else {
      assert Mirrored(codes, items) == [];
    }
  }

  function MirrorItem(codes: map<string, AccountId>, i: Item): Item
    requires i.code in codes
  { Item(codes[i.code], i.code, i.credit, i.debit, i.dims) }

  function Mirrored(codes: map<string, AccountId>, items: seq<Item>): seq<Item>
    requires forall i | i in items :: i.code in codes
  { seq(|items|, k requires 0 <= k < |items| => MirrorItem(codes, items[k])) }

  /** Any accepted mirror of one-sided items is the swapped list, whatever the accounts. */
  lemma {:induction false} MirrorAccepted(codes: map<string, AccountId>, items: seq<Item>)
    requires forall i | i in items :: OneSided(i)
    requires Enrich(codes, NO_HEADER, MirrorLines(items)).Ok?
    ensures forall i | i in items :: i.code in codes && i.code != ""
  {
    if items != [] {
      var init := items[..|items| - 1];
      forall i | i in init ensures i in items {}
      assert MirrorLines(items)[..|items| - 1] == MirrorLines(init);
      MirrorAccepted(codes, init);
      assert Accept(codes, NO_HEADER, MirrorLine(items[|items| - 1])).Ok?;
      assert items == init + [items[|items| - 1]];
    }
  }

  lemma {:induction false} MirroredSums(codes: map<string, AccountId>, items: seq<Item>)
    requires forall i | i in items :: i.code in codes
    ensures SumDebit(Mirrored(codes, items)) == SumCredit(items)
    ensures SumCredit(Mirrored(codes, items)) == SumDebit(items)
  {
    if items != [] {
      var init := items[..|items| - 1];
      forall i | i in init ensures i in items {}
      MirroredSums(codes, init);
      assert Mirrored(codes, items)[..|items| - 1] == Mirrored(codes, init);
    }
  }
}
