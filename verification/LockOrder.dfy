/**
 * Concurrent ledger transactions as threads that take row locks (lib/glPosting.js:567-597,
 * lib/glTransitions.js:140-149). Each locks at most one existing journal row, then its account
 * rows in ascending order, and releases everything at commit.
 */
module LockOrder {
  import opened Text
  import opened LedgerTables
  import opened LedgerStore

  type Program = seq<Lock>

  /** How many locks each thread has taken; one past its program means committed. */
  type State = seq<nat>

  type Order = (AccountId, AccountId) -> bool

  ghost predicate TotalOrder(le: Order) {
    && (forall a, b :: le(a, b) || le(b, a))
    && (forall a, b :: le(a, b) && le(b, a) ==> a == b)
    && (forall a, b, c :: le(a, b) && le(b, c) ==> le(a, c))
  }

  /** At most one journal row, first; then accounts ascending. Repeated accounts are allowed. */
  predicate Shaped(p: Program, le: Order) {
    && (forall i | 0 < i < |p| :: p[i].AccountRow?)
    && (forall i, j | 0 <= i < j < |p| && p[i].AccountRow? && p[j].AccountRow? :: le(p[i].account, p[j].account))
  }

  predicate Fits(ps: seq<Program>, st: State) {
    |st| == |ps| && forall t | 0 <= t < |ps| :: st[t] <= |ps[t]| + 1
  }

  predicate Holds(ps: seq<Program>, st: State, t: nat, l: Lock)
    requires Fits(ps, st) && t < |ps|
  { st[t] <= |ps[t]| && l in ps[t][..st[t]] }

  predicate Finished(ps: seq<Program>, st: State, t: nat)
    requires Fits(ps, st) && t < |ps|
  { st[t] == |ps[t]| + 1 }

  predicate AllFinished(ps: seq<Program>, st: State)
    requires Fits(ps, st)
  { forall t | 0 <= t < |ps| :: Finished(ps, st, t) }

  /** A thread takes its next lock when nobody else holds it, or commits when it has them all. */
  predicate CanStep(ps: seq<Program>, st: State, t: nat)
    requires Fits(ps, st) && t < |ps|
  {
    || st[t] == |ps[t]|
    || (st[t] < |ps[t]| && forall u: nat | u < |ps| && u != t :: !Holds(ps, st, u, ps[t][st[t]]))
  }

  function Step(ps: seq<Program>, st: State, t: nat): (r: State)
    requires Fits(ps, st) && t < |ps| && CanStep(ps, st, t)
    ensures Fits(ps, r)
  { st[t := st[t] + 1] }

  predicate Exclusive(ps: seq<Program>, st: State)
    requires Fits(ps, st)
  {
    forall t: nat, u: nat, i: nat | t < |ps| && u < |ps| && t != u && i < |ps[t]| && Holds(ps, st, t, ps[t][i]) ::
      !Holds(ps, st, u, ps[t][i])
  }

  function Start(ps: seq<Program>): (st: State)
    ensures Fits(ps, st)
  { seq(|ps|, _ => 0) }

  /** A schedule picks the thread of every step. */
  predicate Legal(ps: seq<Program>, st: State, picks: seq<nat>)
    requires Fits(ps, st)
    decreases |picks|
  {
    picks == [] || (picks[0] < |ps| && CanStep(ps, st, picks[0]) && Legal(ps, Step(ps, st, picks[0]), picks[1..]))
  }

  function Reached(ps: seq<Program>, st: State, picks: seq<nat>): (r: State)
    requires Fits(ps, st) && Legal(ps, st, picks)
    ensures Fits(ps, r)
    decreases |picks|
  { if picks == [] then st else Reached(ps, Step(ps, st, picks[0]), picks[1..]) }

  lemma StepExclusive(ps: seq<Program>, st: State, t: nat)
    requires Fits(ps, st) && t < |ps| && CanStep(ps, st, t) && Exclusive(ps, st)
    ensures Exclusive(ps, Step(ps, st, t))
  {
    var st' := Step(ps, st, t);
    forall v: nat, u: nat, i: nat | v < |ps| && u < |ps| && v != u && i < |ps[v]| && Holds(ps, st', v, ps[v][i])
      ensures !Holds(ps, st', u, ps[v][i])
    {
      var l := ps[v][i];
      HoldsAfter(ps, st, t, v, l);
      HoldsAfter(ps, st, t, u, l);
    }
  }

  lemma HoldsAfter(ps: seq<Program>, st: State, t: nat, v: nat, l: Lock)
    requires Fits(ps, st) && t < |ps| && CanStep(ps, st, t) && v < |ps|
    ensures Holds(ps, Step(ps, st, t), v, l) ==>
              Holds(ps, st, v, l) || (v == t && st[t] < |ps[t]| && l == ps[t][st[t]])
  {
    if v == t && st[t] < |ps[t]| { assert ps[t][..st[t] + 1] == ps[t][..st[t]] + [ps[t][st[t]]]; }
  }

  lemma {:induction false} ReachedExclusive(ps: seq<Program>, st: State, picks: seq<nat>)
    requires Fits(ps, st) && Exclusive(ps, st) && Legal(ps, st, picks)
    ensures Exclusive(ps, Reached(ps, st, picks))
    decreases |picks|
  {
    if picks != [] {
      StepExclusive(ps, st, picks[0]);
      ReachedExclusive(ps, Step(ps, st, picks[0]), picks[1..]);
    }
  }

  // ----- Progress -----

  /** Journals before accounts; accounts by the given order. */
  predicate LockLe(le: Order, x: Lock, y: Lock) {
    match (x, y)
    case (JournalRow(a), JournalRow(b)) => Le(a, b)
    case (JournalRow(_), AccountRow(_)) => true
    case (AccountRow(_), JournalRow(_)) => false
    case (AccountRow(a), AccountRow(b)) => le(a, b)
  }

  lemma LockOrderTotal(le: Order, x: Lock, y: Lock, z: Lock)
    requires TotalOrder(le)
    ensures LockLe(le, x, y) || LockLe(le, y, x)
    ensures LockLe(le, x, y) && LockLe(le, y, x) ==> x == y
    ensures LockLe(le, x, y) && LockLe(le, y, z) ==> LockLe(le, x, z)
  {
    if x.JournalRow? && y.JournalRow? {
      LeTotal(x.id, y.id);
      if LockLe(le, x, y) && LockLe(le, y, x) { LeAntisymmetric(x.id, y.id); }
      if z.JournalRow? && LockLe(le, x, y) && LockLe(le, y, z) { LeTransitive(x.id, y.id, z.id); }
    }
  }

  predicate Waiting(ps: seq<Program>, st: State, t: nat)
    requires Fits(ps, st) && t < |ps|
  { st[t] < |ps[t]| }

  /** Among the threads below n that still wait for a lock, one waits for the greatest. */
  lemma {:induction false} GreatestWait(ps: seq<Program>, st: State, le: Order, n: nat, w: nat) returns (g: nat)
    requires Fits(ps, st) && TotalOrder(le) && w < n <= |ps| && Waiting(ps, st, w)
    ensures g < n && Waiting(ps, st, g)
    ensures forall t: nat | t < n && Waiting(ps, st, t) :: LockLe(le, ps[t][st[t]], ps[g][st[g]])
  {
    g := w;
    var k: nat := 0;
    LockOrderTotal(le, ps[w][st[w]], ps[w][st[w]], ps[w][st[w]]);
    while k < n
      invariant k <= n && g < n && Waiting(ps, st, g)
      invariant LockLe(le, ps[g][st[g]], ps[g][st[g]])
      invariant forall t: nat | t < k && Waiting(ps, st, t) :: LockLe(le, ps[t][st[t]], ps[g][st[g]])
    {
      if Waiting(ps, st, k) {
        var x, y := ps[k][st[k]], ps[g][st[g]];
        LockOrderTotal(le, x, y, x);
        LockOrderTotal(le, x, x, x);
        if !LockLe(le, x, y) {
          forall t: nat | t < k && Waiting(ps, st, t) ensures LockLe(le, ps[t][st[t]], x) {
            LockOrderTotal(le, ps[t][st[t]], y, x);
          }
          g := k;
        }
      }
      k := k + 1;
    }
  }

  /** While somebody is unfinished, somebody can step: no deadlock. */
  lemma Progress(ps: seq<Program>, st: State, le: Order)
    requires Fits(ps, st) && TotalOrder(le) && Exclusive(ps, st) && !AllFinished(ps, st)
    requires forall p | p in ps :: Shaped(p, le)
    ensures exists t: nat | t < |ps| :: CanStep(ps, st, t)
  {
    var w: nat :| w < |ps| && !Finished(ps, st, w);
    if st[w] == |ps[w]| {
      assert CanStep(ps, st, w);
    } else {
      var g := GreatestWait(ps, st, le, |ps|, w);
      if !CanStep(ps, st, g) {
        var l := ps[g][st[g]];
        var u: nat :| u < |ps| && u != g && Holds(ps, st, u, l);
        if st[u] == |ps[u]| {
          assert CanStep(ps, st, u);
        } else {
          var i :| 0 <= i < st[u] && ps[u][i] == l;
          var m := ps[u][st[u]];
          assert ps[u] in ps && LockLe(le, l, m);
          assert LockLe(le, m, l);
          LockOrderTotal(le, l, m, l);
          assert l == m;
          forall v: nat | v < |ps| && v != u ensures !Holds(ps, st, v, m) {
            assert Holds(ps, st, u, ps[u][i]);
          }
          assert CanStep(ps, st, u);
        }
      }
    }
  }

  function Remaining(ps: seq<Program>, st: State, n: nat): nat
    requires Fits(ps, st) && n <= |ps|
  { if n == 0 then 0 else Remaining(ps, st, n - 1) + (|ps[n - 1]| + 1 - st[n - 1]) }

  lemma {:induction false} StepRemaining(ps: seq<Program>, st: State, t: nat, n: nat)
    requires Fits(ps, st) && t < |ps| && n <= |ps| && CanStep(ps, st, t)
    ensures Remaining(ps, Step(ps, st, t), n) == Remaining(ps, st, n) - (if t < n then 1 else 0)
  {
    if n > 0 { StepRemaining(ps, st, t, n - 1); }
  }

  /** Every step uses up one unit of work, so no schedule is longer than the work at its start. */
  lemma {:induction false} SchedulesEnd(ps: seq<Program>, st: State, picks: seq<nat>)
    requires Fits(ps, st) && Legal(ps, st, picks)
    ensures Remaining(ps, Reached(ps, st, picks), |ps|) == Remaining(ps, st, |ps|) - |picks|
    ensures |picks| <= Remaining(ps, st, |ps|)
    decreases |picks|
  {
    if picks != [] {
      StepRemaining(ps, st, picks[0], |ps|);
      SchedulesEnd(ps, Step(ps, st, picks[0]), picks[1..]);
    }
  }

  /** Any number of transactions in one lock order: a schedule that cannot go on has finished them all. */
  lemma AllTransactionsFinish(ps: seq<Program>, picks: seq<nat>, le: Order)
    requires TotalOrder(le) && (forall p | p in ps :: Shaped(p, le)) && Legal(ps, Start(ps), picks)
    ensures var st := Reached(ps, Start(ps), picks);
            AllFinished(ps, st) || exists t: nat | t < |ps| :: CanStep(ps, st, t)
    ensures |picks| <= Remaining(ps, Start(ps), |ps|)
  {
    ReachedExclusive(ps, Start(ps), picks);
    SchedulesEnd(ps, Start(ps), picks);
    var st := Reached(ps, Start(ps), picks);
    if !AllFinished(ps, st) { Progress(ps, st, le); }
  }

  // ----- Two orders: Array.sort() in postJournal, ORDER BY in applyBalances -----

  /** No schedule of posters sorting by one order and transitions sorting by the other gets stuck. */
  ghost predicate DeadlockFree(posters: Order, transitions: Order) {
    forall ps: seq<Program>, picks: seq<nat> |
      && (forall p | p in ps :: Shaped(p, posters) || Shaped(p, transitions))
      && Legal(ps, Start(ps), picks) ::
        Unstuck(ps, Reached(ps, Start(ps), picks))
  }

  ghost predicate Unstuck(ps: seq<Program>, st: State)
    requires Fits(ps, st)
  { AllFinished(ps, st) || exists t: nat | t < |ps| :: CanStep(ps, st, t) }

  ghost predicate Agree(posters: Order, transitions: Order) {
    forall a, b :: posters(a, b) <==> transitions(a, b)
  }

  /** Two transactions that want the same two accounts the other way round. */
  lemma OppositeOrdersDeadlock(posters: Order, transitions: Order, a: AccountId, b: AccountId)
    requires a != b && posters(a, b) && transitions(b, a)
    ensures !DeadlockFree(posters, transitions)
  {
    var ps: seq<Program> := [[AccountRow(a), AccountRow(b)], [AccountRow(b), AccountRow(a)]];
    assert Shaped(ps[0], posters) && Shaped(ps[1], transitions);
    var s0 := Start(ps);
    assert CanStep(ps, s0, 0);
    var s1 := Step(ps, s0, 0);
    assert s1 == [1, 0] && ps[0][..1] == [AccountRow(a)] && ps[1][..0] == [];
    assert CanStep(ps, s1, 1);
    var s2 := Step(ps, s1, 1);
    assert s2 == [1, 1] && ps[1][..1] == [AccountRow(b)];
    var picks: seq<nat> := [0, 1];
    assert picks[1..] == [1] && picks[1..][1..] == [];
    assert Legal(ps, s2, []) && Legal(ps, s1, [1]) && Legal(ps, s0, picks);
    assert Reached(ps, s1, [1]) == s2;
    assert Reached(ps, s0, picks) == s2;
    assert Holds(ps, s2, 1, ps[0][1]) && Holds(ps, s2, 0, ps[1][1]);
    assert !CanStep(ps, s2, 0) && !CanStep(ps, s2, 1) && !Finished(ps, s2, 0);
    assert !Unstuck(ps, s2);
  }

  /** The ledger is free of deadlock exactly when the two sort orders agree on every pair of accounts. */
  lemma DeadlockFreeIffOrdersAgree(posters: Order, transitions: Order)
    requires TotalOrder(posters) && TotalOrder(transitions)
    ensures DeadlockFree(posters, transitions) <==> Agree(posters, transitions)
  {
    if Agree(posters, transitions) {
      forall ps: seq<Program>, picks: seq<nat> |
        && (forall p | p in ps :: Shaped(p, posters) || Shaped(p, transitions))
        && Legal(ps, Start(ps), picks)
        ensures Unstuck(ps, Reached(ps, Start(ps), picks))
      {
        AllTransactionsFinish(ps, picks, posters);
      }
    } else {
      var a, b :| posters(a, b) != transitions(a, b);
      if posters(a, b) { OppositeOrdersDeadlock(posters, transitions, a, b); }
      else { OppositeOrdersDeadlock(posters, transitions, b, a); }
    }
  }

  // ----- The programs the ledger runs -----

  lemma KeysShaped(head: seq<Lock>, ks: seq<AccountId>)
    requires head == [] || (|head| == 1 && head[0].JournalRow?)
    requires forall i, j | 0 <= i < j < |ks| :: Le(ks[i], ks[j])
    ensures Shaped(head + AccountLocks(ks), Le)
  {
    var p, h := head + AccountLocks(ks), |head|;
    forall i | h <= i < |p| ensures p[i] == AccountRow(ks[i - h]) {}
    forall i, j | 0 <= i < j < |p| && p[i].AccountRow? && p[j].AccountRow?
      ensures Le(p[i].account, p[j].account)
    { assert Le(ks[i - h], ks[j - h]); }
  }

  /** Account rows of postJournal and of reverse(), which locks its original first. */
  lemma PosterShaped(head: seq<Lock>, accounts: set<AccountId>)
    requires head == [] || (|head| == 1 && head[0].JournalRow?)
    ensures Shaped(head + AccountLocks(SortSet(accounts)), Le)
  {
    var ks := SortSet(accounts);
    assert forall i, j | 0 <= i < j < |ks| :: Le(ks[i], ks[j]);
    KeysShaped(head, ks);
  }

  /** Journal row and account rows of post() and approvePost(). */
  lemma TransitionShaped(id: JournalId, items: seq<Item>)
    ensures Shaped([JournalRow(id)] + ItemLocks(SortByAccount(items)), Le)
  {
    SortByAccountFacts(items, "");
    var s := SortByAccount(items);
    var p := [JournalRow(id)] + ItemLocks(s);
    forall i | 1 <= i < |p| ensures p[i] == AccountRow(s[i - 1].account) {}
  }

  lemma LeIsTotalOrder()
    ensures TotalOrder(Le)
  {
    forall a: string, b: string, c: string
      ensures Le(a, b) || Le(b, a)
      ensures Le(a, b) && Le(b, a) ==> a == b
      ensures Le(a, b) && Le(b, c) ==> Le(a, c)
    {
      LeTotal(a, b);
      if Le(a, b) && Le(b, a) { LeAntisymmetric(a, b); }
      if Le(a, b) && Le(b, c) { LeTransitive(a, b, c); }
    }
  }

  /** The row locks of any ledger transaction: postJournal, approve, deleteJournal and reverse, or post and approvePost. */
  ghost predicate LedgerProgram(p: Program) {
    || (exists head: seq<Lock>, accounts: set<AccountId> ::
          (head == [] || (|head| == 1 && head[0].JournalRow?)) && p == head + AccountLocks(SortSet(accounts)))
    || (exists id: JournalId, items: seq<Item> :: p == [JournalRow(id)] + ItemLocks(SortByAccount(items)))
  }

  lemma LedgerProgramShaped(p: Program)
    requires LedgerProgram(p)
    ensures Shaped(p, Le)
  {
    if exists id: JournalId, items: seq<Item> :: p == [JournalRow(id)] + ItemLocks(SortByAccount(items)) {
      var id: JournalId, items: seq<Item> :| p == [JournalRow(id)] + ItemLocks(SortByAccount(items));
      TransitionShaped(id, items);
    } else {
      var head: seq<Lock>, accounts: set<AccountId> :|
        (head == [] || (|head| == 1 && head[0].JournalRow?)) && p == head + AccountLocks(SortSet(accounts));
      PosterShaped(head, accounts);
    }
  }

  /** A schedule of ledger transactions is not stuck, and no longer than their work. */
  lemma LedgerUnstuck(ps: seq<Program>, picks: seq<nat>)
    requires (forall p | p in ps :: LedgerProgram(p)) && Legal(ps, Start(ps), picks)
    ensures Unstuck(ps, Reached(ps, Start(ps), picks)) && |picks| <= Remaining(ps, Start(ps), |ps|)
  {
    LeIsTotalOrder();
    forall p | p in ps ensures Shaped(p, Le) { LedgerProgramShaped(p); }
    AllTransactionsFinish(ps, picks, Le);
  }

  /** A schedule that is neither stuck nor finished goes on, and every step uses up work. */
  lemma NextPick(ps: seq<Program>, picks: seq<nat>) returns (t: nat)
    requires Legal(ps, Start(ps), picks) && Unstuck(ps, Reached(ps, Start(ps), picks))
    requires !AllFinished(ps, Reached(ps, Start(ps), picks))
    ensures Legal(ps, Start(ps), picks + [t])
    ensures Remaining(ps, Reached(ps, Start(ps), picks + [t]), |ps|) < Remaining(ps, Reached(ps, Start(ps), picks), |ps|)
  {
    var st := Reached(ps, Start(ps), picks);
    t :| t < |ps| && CanStep(ps, st, t);
    ScheduleSnoc(ps, Start(ps), picks, t);
    StepRemaining(ps, st, t, |ps|);
  }

  /**
   * Any mix of ledger transactions, account ids ordered alike by both sorts: no schedule gets stuck,
   * none goes on for ever, and every schedule extends to one that finishes them all.
   */
  lemma LedgerNeverStuck(ps: seq<Program>, picks: seq<nat>) returns (more: seq<nat>)
    requires (forall p | p in ps :: LedgerProgram(p)) && Legal(ps, Start(ps), picks)
    ensures Unstuck(ps, Reached(ps, Start(ps), picks)) && |picks| <= Remaining(ps, Start(ps), |ps|)
    ensures Legal(ps, Start(ps), picks + more) && AllFinished(ps, Reached(ps, Start(ps), picks + more))
    decreases Remaining(ps, Reached(ps, Start(ps), picks), |ps|)
  {
    LedgerUnstuck(ps, picks);
    if AllFinished(ps, Reached(ps, Start(ps), picks)) {
      more := [];
      assert picks + [] == picks;
    } else {
      var t := NextPick(ps, picks);
      var rest := LedgerNeverStuck(ps, picks + [t]);
      more := [t] + rest;
      assert picks + more == picks + [t] + rest;
    }
  }

  lemma {:induction false} ScheduleSnoc(ps: seq<Program>, st: State, picks: seq<nat>, t: nat)
    requires Fits(ps, st) && Legal(ps, st, picks) && t < |ps| && CanStep(ps, Reached(ps, st, picks), t)
    ensures Legal(ps, st, picks + [t]) && Reached(ps, st, picks + [t]) == Step(ps, Reached(ps, st, picks), t)
    decreases |picks|
  {
    if picks == [] {
      assert [] + [t] == [t] && [t][1..] == [];
      assert Legal(ps, Step(ps, st, t), []);
    } else {
      assert (picks + [t])[0] == picks[0] && (picks + [t])[1..] == picks[1..] + [t];
      ScheduleSnoc(ps, Step(ps, st, picks[0]), picks[1..], t);
    }
  }
}
