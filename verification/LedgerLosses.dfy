/**
 * What swallowed balance updates do over whole runs (lib/glPosting.js:583-593): an account falls
 * short of its posted entries by exactly the nets it lost, and nothing else ever goes wrong.
 */
module LedgerLosses {
  import opened LedgerTables
  import opened LedgerSums
  import opened LedgerInvariant
  import opened LedgerDrift

  /** What the posted entries of an account say beyond its balance. */
  function Shortfall(t: Tables, a: AccountId): int
    requires a in t.accounts
  { NetOfJournals(t.rows, PostedIds(t), a) - t.accounts[a] }

  /** What one operation should have added to an account and did not. */
  function LostOn(t: Tables, e: Event, a: AccountId): int
    requires Enabled(t, e)
  {
    if (e.Post? || e.Reverse?) && a in e.lost && !SpecOf(t, e).draft
    then NetOn(Plan(e.ctx, SpecOf(t, e)).value, a) else 0
  }

  ghost function LostNet(t: Tables, es: seq<Event>, a: AccountId): int
    requires IsRun(t, es)
    decreases |es|
  { if es == [] then 0 else LostOn(t, es[0], a) + LostNet(Apply(t, es[0]), es[1..], a) }

  // ----- The same ledger with every balance repaired -----

  function Healed(t: Tables): Tables {
    t.(accounts := map a | a in t.accounts :: NetOfJournals(t.rows, PostedIds(t), a))
  }

  function Lossless(e: Event): Event { if e.Post? || e.Reverse? then e.(lost := {}) else e }

  function AllLossless(es: seq<Event>): (r: seq<Event>)
    ensures |r| == |es|
  { if es == [] then [] else [Lossless(es[0])] + AllLossless(es[1..]) }

  /** Rows, headers, numbers and links do not look at a balance. */
  lemma StructureSame(t: Tables, t': Tables)
    requires Structure(t) && t'.accounts.Keys == t.accounts.Keys
    requires t'.journals == t.journals && t'.order == t.order && t'.rows == t.rows
    ensures Structure(t')
  {
    forall r | r in t'.rows ensures r.item.account in t'.accounts { assert r.item.account in t.accounts.Keys; }
    forall k | k in t'.journals ensures HeaderOk(t', k) && LinkOk(t', k) { assert HeaderOk(t, k) && LinkOk(t, k); }
  }

  lemma HealedInv(t: Tables)
    requires Structure(t)
    ensures Inv(Healed(t))
  {
    StructureSame(t, Healed(t));
    assert PostedIds(Healed(t)) == PostedIds(t);
  }

  lemma HealedEnabled(t: Tables, e: Event)
    requires Enabled(t, e)
    ensures Enabled(Healed(t), Lossless(e))
  {
    if e.Post? || e.Reverse? {
      assert NumberFree(Healed(t), e.number);
      assert CodesKnown(Healed(t), e.ctx);
    }
  }

  /** The operation with and without its losses leaves tables that differ in balances only. */
  lemma SameButBalances(t: Tables, e: Event)
    requires Enabled(t, e) && Enabled(Healed(t), Lossless(e))
    ensures var u, h := Apply(t, e), Apply(Healed(t), Lossless(e));
            && u.journals == h.journals && u.order == h.order && u.rows == h.rows && u.audits == h.audits
            && u.accounts.Keys == t.accounts.Keys == h.accounts.Keys
  {}

  /** Tables with right balances are the repaired form of all tables that differ in balances only. */
  lemma HealedIs(u: Tables, h: Tables)
    requires u.journals == h.journals && u.order == h.order && u.rows == h.rows && u.audits == h.audits
    requires u.accounts.Keys == h.accounts.Keys && BalancesOk(h)
    ensures Healed(u) == h
  {
    assert PostedIds(u) == PostedIds(h);
    forall a | a in u.accounts.Keys ensures a in h.accounts && Healed(u).accounts[a] == h.accounts[a] {
      assert a in h.accounts.Keys;
    }
    assert Healed(u).accounts == h.accounts;
  }

  lemma HealedStep(t: Tables, e: Event)
    requires Structure(t) && Enabled(t, e)
    ensures Enabled(Healed(t), Lossless(e)) && Healed(Apply(t, e)) == Apply(Healed(t), Lossless(e))
  {
    HealedInv(t);
    HealedEnabled(t, e);
    SameButBalances(t, e);
    StepKeeps(Healed(t), Lossless(e));
    HealedIs(Apply(t, e), Apply(Healed(t), Lossless(e)));
  }

  /** One operation makes an account fall short by what it lost there. */
  lemma StepShortfall(t: Tables, e: Event, a: AccountId)
    requires Structure(t) && Enabled(t, e) && a in t.accounts
    ensures a in Apply(t, e).accounts && Shortfall(Apply(t, e), a) == Shortfall(t, a) + LostOn(t, e, a)
  {
    HealedStep(t, e);
    assert Healed(t).accounts[a] == NetOfJournals(t.rows, PostedIds(t), a);
    var u := Apply(t, e);
    MovedBy(t, e, a);
    assert Healed(u).accounts[a] == NetOfJournals(u.rows, PostedIds(u), a);
  }

  /** With its losses the operation moves a balance by what it lost less than without. */
  lemma MovedBy(t: Tables, e: Event, a: AccountId)
    requires Enabled(t, e) && Enabled(Healed(t), Lossless(e)) && a in t.accounts
    ensures a in Apply(t, e).accounts && a in Apply(Healed(t), Lossless(e)).accounts
    ensures Apply(t, e).accounts[a] - t.accounts[a] + LostOn(t, e, a)
         == Apply(Healed(t), Lossless(e)).accounts[a] - Healed(t).accounts[a]
  {}

  /**
   * For every run from well-formed tables, whatever statements fail: the tables stay well formed, and
   * what an account falls short of its posted entries grew by exactly the nets lost on it.
   */
  lemma {:induction false} ShortfallIsLost(t: Tables, es: seq<Event>, a: AccountId)
    requires Structure(t) && IsRun(t, es) && a in t.accounts
    ensures Structure(After(t, es)) && a in After(t, es).accounts
    ensures Shortfall(After(t, es), a) == Shortfall(t, a) + LostNet(t, es, a)
    decreases |es|
  {
    if es != [] {
      StepStructure(t, es[0]);
      StepShortfall(t, es[0], a);
      ShortfallIsLost(Apply(t, es[0]), es[1..], a);
    }
  }

  lemma {:induction false} RunStructure(t: Tables, es: seq<Event>)
    requires Structure(t) && IsRun(t, es)
    ensures Structure(After(t, es)) && After(t, es).accounts.Keys == t.accounts.Keys
    decreases |es|
  {
    if es != [] {
      StepStructure(t, es[0]);
      HealedEnabled(t, es[0]);
      SameButBalances(t, es[0]);
      RunStructure(Apply(t, es[0]), es[1..]);
    }
  }

  /** After any run every balance equals its posted entries if and only if the losses on each account cancel out. */
  lemma RunBalancesIff(t: Tables, es: seq<Event>)
    requires Inv(t) && IsRun(t, es)
    ensures Structure(After(t, es))
    ensures BalancesOk(After(t, es)) <==> forall a | a in t.accounts :: LostNet(t, es, a) == 0
  {
    RunStructure(t, es);
    var u := After(t, es);
    forall a | a in t.accounts
      ensures a in u.accounts
           && (LostNet(t, es, a) == 0 <==> u.accounts[a] == NetOfJournals(u.rows, PostedIds(u), a))
    {
      ShortfallIsLost(t, es, a);
      assert t.accounts[a] == NetOfJournals(t.rows, PostedIds(t), a);
    }
    assert forall a :: a in u.accounts.Keys <==> a in t.accounts.Keys;
  }

  // ----- The trial balance of any run -----

  lemma {:induction false} HealedRun(t: Tables, es: seq<Event>)
    requires Structure(t) && IsRun(t, es)
    ensures IsRun(Healed(t), AllLossless(es)) && NothingLost(AllLossless(es))
    ensures After(Healed(t), AllLossless(es)) == Healed(After(t, es))
    decreases |es|
  {
    if es != [] {
      StepStructure(t, es[0]);
      HealedStep(t, es[0]);
      HealedRun(Apply(t, es[0]), es[1..]);
      var ls := AllLossless(es);
      assert ls[0] == Lossless(es[0]) && ls[1..] == AllLossless(es[1..]);
      forall i | 0 <= i < |ls| ensures ls[i].Post? || ls[i].Reverse? ==> ls[i].lost == {} {
        assert i > 0 ==> ls[i] == ls[1..][i - 1];
      }
    }
  }

  lemma {:induction false} ChainLengthSame(t: Tables, t': Tables, k: JournalId)
    requires OrderOk(t) && LinksOk(t) && OrderOk(t') && LinksOk(t') && k in t.journals
    requires t'.journals == t.journals && t'.order == t.order
    ensures ChainLength(t', k) == ChainLength(t, k)
    decreases Position(t.order, k)
  {
    assert LinkOk(t, k);
    match t.journals[k].reverses
    case None =>
    case Some(o) =>
      BeforePosition(t.order, o, k);
      ChainLengthSame(t, t', o);
  }

  lemma OddTipsSame(t: Tables)
    requires Structure(t) && Structure(Healed(t))
    ensures OddTips(Healed(t)) == OddTips(t)
  {
    forall k | k in t.journals ensures ChainLength(Healed(t), k) == ChainLength(t, k) {
      ChainLengthSame(t, Healed(t), k);
    }
  }

  lemma {:induction false} SumBalancesAdd(x: map<AccountId, int>, y: map<AccountId, int>, z: map<AccountId, int>)
    requires x.Keys == y.Keys == z.Keys
    requires forall a | a in x.Keys :: z[a] == x[a] + y[a]
    ensures SumBalances(z) == SumBalances(x) + SumBalances(y)
    decreases |x|
  {
    if x == map[] {
      assert y == map[] && z == map[];
    } else {
      var a :| a in x.Keys;
      SumBalancesTake(x, a);
      SumBalancesTake(y, a);
      SumBalancesTake(z, a);
      SumBalancesAdd(x - {a}, y - {a}, z - {a});
    }
  }

  /** Everything a run lost, account by account. */
  ghost function Losses(t: Tables, es: seq<Event>): map<AccountId, int>
    requires IsRun(t, es)
  { map a | a in t.accounts :: LostNet(t, es, a) }

  lemma HealedSum(t: Tables, es: seq<Event>)
    requires Inv(t) && IsRun(t, es)
    ensures SumBalances(Healed(After(t, es)).accounts)
         == SumBalances(After(t, es).accounts) + SumBalances(Losses(t, es))
  {
    RunStructure(t, es);
    var u := After(t, es);
    forall a | a in u.accounts.Keys
      ensures a in t.accounts && Healed(u).accounts[a] == u.accounts[a] + Losses(t, es)[a]
    {
      assert a in t.accounts.Keys;
      ShortfallIsLost(t, es, a);
      assert t.accounts[a] == NetOfJournals(t.rows, PostedIds(t), a);
    }
    assert Losses(t, es).Keys == t.accounts.Keys && Healed(u).accounts.Keys == u.accounts.Keys;
    SumBalancesAdd(u.accounts, Losses(t, es), Healed(u).accounts);
  }

  /**
   * In every reachable state, whatever updates were lost on the way, all balances and all losses
   * together sum to at most one halala per reversal chain of odd length, hence per posted journal.
   */
  lemma TrialBalance(t: Tables, es: seq<Event>)
    requires Fresh(t) && IsRun(t, es)
    ensures Structure(After(t, es))
    ensures var u := After(t, es);
            && -|OddTips(u)| <= SumBalances(u.accounts) + SumBalances(Losses(t, es)) <= |OddTips(u)|
            && |OddTips(u)| <= |PostedIds(u)|
  {
    FreshInv(t);
    RunStructure(t, es);
    HealedRun(t, es);
    assert Fresh(Healed(t));
    var u := After(t, es);
    TrialBalanceBound(Healed(t), AllLossless(es));
    HealedSum(t, es);
    OddTipsSame(u);
    assert PostedIds(Healed(u)) == PostedIds(u);
  }
}
