/**
 * How far the sum of all balances can drift from zero (lib/glPosting.js:494-503): a journal may be
 * one halala off, and a reversal takes its original's halala back.
 */
module LedgerDrift {
  import opened Text
  import opened LedgerTables
  import opened LedgerSums
  import opened LedgerInvariant

  // ----- Reversal chains -----

  function Position(order: seq<JournalId>, k: JournalId): (i: nat)
    requires k in order
    ensures i < |order| && order[i] == k
  { if order[|order| - 1] == k then |order| - 1 else Position(order[..|order| - 1], k) }

  lemma {:induction false} PositionUnique(order: seq<JournalId>, i: nat)
    requires Distinct(order) && i < |order|
    ensures Position(order, order[i]) == i
  {}

  lemma BeforePosition(order: seq<JournalId>, j: JournalId, k: JournalId)
    requires Distinct(order) && Before(order, j, k)
    ensures j in order && k in order && Position(order, j) < Position(order, k)
  {
    var a, b :| 0 <= a < b < |order| && order[a] == j && order[b] == k;
    PositionUnique(order, a);
    PositionUnique(order, b);
  }

  /** Number of journals from the original up to k: 1 for an original, 2 for its reversal, ... */
  ghost function ChainLength(t: Tables, k: JournalId): nat
    requires OrderOk(t) && LinksOk(t) && k in t.journals
    decreases Position(t.order, k)
  {
    assert LinkOk(t, k);
    match t.journals[k].reverses
    case None => 1
    case Some(o) =>
      BeforePosition(t.order, o, k);
      1 + ChainLength(t, o)
  }

  /** Following `reverses` never comes back: the position in the table falls at every step. */
  lemma {:induction false} ChainsAcyclic(t: Tables, path: seq<JournalId>)
    requires OrderOk(t) && LinksOk(t) && |path| >= 2
    requires forall i | 0 <= i < |path| :: path[i] in t.journals
    requires forall i | 0 <= i < |path| - 1 :: t.journals[path[i]].reverses == Some(path[i + 1])
    ensures Position(t.order, path[|path| - 1]) < Position(t.order, path[0])
    ensures path[|path| - 1] != path[0]
  {
    assert LinkOk(t, path[0]) && t.journals[path[0]].reverses == Some(path[0 + 1]);
    BeforePosition(t.order, path[1], path[0]);
    if |path| > 2 { ChainsAcyclic(t, path[1..]); }
  }

  /** Journals that are last in a reversal chain of odd length. */
  ghost function OddTips(t: Tables): set<JournalId>
    requires OrderOk(t) && LinksOk(t)
  {
    set k | k in t.journals && t.journals[k].status == Posted && t.journals[k].reversedBy.None?
            && ChainLength(t, k) % 2 == 1
  }

  // ----- The same chains read off the insertion order -----

  /** Journals an even number of reversals away from their original. */
  function EvenSet(order: seq<JournalId>, js: map<JournalId, Journal>): set<JournalId> {
    if order == [] then {}
    else
      var init := EvenSet(order[..|order| - 1], js);
      init + EvenNext(init, js, order[|order| - 1])
  }

  function EvenNext(even: set<JournalId>, js: map<JournalId, Journal>, k: JournalId): set<JournalId> {
    if k in js && (js[k].reverses.None? || js[k].reverses.value !in even) then {k} else {}
  }

  function Weight(js: map<JournalId, Journal>, even: set<JournalId>, k: JournalId): int {
    if k in js && js[k].status == Posted && js[k].reversedBy.None? && k in even
    then js[k].totalDebit - js[k].totalCredit else 0
  }

  function WeightSum(order: seq<JournalId>, js: map<JournalId, Journal>, even: set<JournalId>): int {
    if order == [] then 0
    else WeightSum(order[..|order| - 1], js, even) + Weight(js, even, order[|order| - 1])
  }

  function Drift(t: Tables): int { WeightSum(t.order, t.journals, EvenSet(t.order, t.journals)) }

  lemma {:induction false} EvenSetWithin(order: seq<JournalId>, js: map<JournalId, Journal>)
    ensures forall k | k in EvenSet(order, js) :: k in order && k in js
  {
    if order != [] {
      EvenSetWithin(order[..|order| - 1], js);
      assert order == order[..|order| - 1] + [order[|order| - 1]];
    }
  }

  lemma {:induction false} EvenSetSame(order: seq<JournalId>, js: map<JournalId, Journal>, js': map<JournalId, Journal>)
    requires forall k | k in order :: k in js && k in js' && js[k].reverses == js'[k].reverses
    ensures EvenSet(order, js) == EvenSet(order, js')
  {
    if order != [] {
      forall k | k in order[..|order| - 1] ensures k in order {}
      EvenSetSame(order[..|order| - 1], js, js');
    }
  }

  lemma {:induction false} WeightSumSame(order: seq<JournalId>, js: map<JournalId, Journal>, even: set<JournalId>,
                                         js': map<JournalId, Journal>, even': set<JournalId>)
    requires forall k | k in order :: Weight(js, even, k) == Weight(js', even', k)
    ensures WeightSum(order, js, even) == WeightSum(order, js', even')
  {
    if order != [] {
      forall k | k in order[..|order| - 1] ensures k in order {}
      WeightSumSame(order[..|order| - 1], js, even, js', even');
    }
  }

  /** Membership of an earlier journal is settled by its prefix. */
  lemma {:induction false} EvenSetPrefix(order: seq<JournalId>, js: map<JournalId, Journal>, n: nat, k: JournalId)
    requires Distinct(order) && n <= |order| && k in order[..n]
    ensures k in EvenSet(order, js) <==> k in EvenSet(order[..n], js)
  {
    if n < |order| {
      var init := order[..|order| - 1];
      assert init[..n] == order[..n];
      EvenSetPrefix(init, js, n, k);
    } else {
      assert order[..n] == order;
    }
  }

  lemma EvenStep(order: seq<JournalId>, js: map<JournalId, Journal>, i: nat)
    requires Distinct(order) && i < |order| && order[i] in js
    ensures order[i] in EvenSet(order, js)
       <==> js[order[i]].reverses.None? || js[order[i]].reverses.value !in EvenSet(order[..i], js)
  {
    var upto := order[..i + 1];
    assert upto[..|upto| - 1] == order[..i] && upto[|upto| - 1] == order[i];
    EvenSetPrefix(order, js, i + 1, order[i]);
    EvenSetWithin(order[..i], js);
  }

  /** The two readings agree: even distance from the original means odd chain length. */
  lemma {:induction false} EvenIsOddLength(t: Tables, k: JournalId)
    requires OrderOk(t) && LinksOk(t) && k in t.journals
    ensures k in EvenSet(t.order, t.journals) <==> ChainLength(t, k) % 2 == 1
    decreases Position(t.order, k)
  {
    var i := Position(t.order, k);
    EvenStep(t.order, t.journals, i);
    assert LinkOk(t, k);
    match t.journals[k].reverses
    case None =>
    case Some(o) =>
      BeforePosition(t.order, o, k);
      assert t.order[..i][Position(t.order, o)] == o;
      EvenSetPrefix(t.order, t.journals, i, o);
      EvenIsOddLength(t, o);
      assert ChainLength(t, k) == 1 + ChainLength(t, o);
  }

  // ----- The sum of all balances is the drift of the open chains -----

  ghost predicate DriftOk(t: Tables) { SumBalances(t.accounts) == Drift(t) }

  /** A journal inserted last, with no link, adds its own weight. */
  lemma InsertedWeights(order: seq<JournalId>, js: map<JournalId, Journal>, id: JournalId, j: Journal)
    requires (forall k | k in order :: k in js) && id !in order && j.reverses.None? && j.reversedBy.None?
    ensures WeightSum(order + [id], js[id := j], EvenSet(order + [id], js[id := j]))
         == WeightSum(order, js, EvenSet(order, js)) + (if j.status == Posted then j.totalDebit - j.totalCredit else 0)
  {
    var js' := js[id := j];
    var e, e' := EvenSet(order, js), EvenSet(order + [id], js');
    EvenSetSame(order, js, js');
    EvenSetSnoc(order, id, js');
    EvenSetWithin(order, js);
    WeightSumSnoc(order, id, js', e');
    WeightSumSame(order, js, e, js', e');
  }

  lemma InsertedDrift(t: Tables, ctx: Ctx, s: Spec, id: JournalId, number: string)
    requires Inv(t) && DriftOk(t) && Insertable(t, ctx, id, number) && Plan(ctx, s).Ok?
    ensures DriftOk(Inserted(t, ctx, s, id, number, Plan(ctx, s).value, {}))
  {
    var items := Plan(ctx, s).value;
    PlanFacts(ctx, s);
    InsertedWeights(t.order, t.journals, id, NewJournal(ctx, s, number, items));
    if !s.draft { SumBalancesAddNets(t.accounts, items); }
  }

  lemma {:induction false} WeightSumUpdate(order: seq<JournalId>, js: map<JournalId, Journal>, even: set<JournalId>,
                                           js': map<JournalId, Journal>, even': set<JournalId>, id: JournalId)
    requires Distinct(order) && id in order
    requires forall k | k in order && k != id :: Weight(js, even, k) == Weight(js', even', k)
    ensures WeightSum(order, js', even') == WeightSum(order, js, even) - Weight(js, even, id) + Weight(js', even', id)
  {
    var init, last := order[..|order| - 1], order[|order| - 1];
    assert order == init + [last];
    if last == id {
      WeightSumSame(init, js, even, js', even');
    } else {
      WeightSumUpdate(init, js, even, js', even', id);
    }
  }

  lemma PostedWeights(t: Tables, id: JournalId, approver: string, poster: string)
    requires OrderOk(t) && LinksOk(t) && id in t.journals && t.journals[id].status != Posted
    ensures Drift(WithStatus(t, id, Posted, approver, poster))
         == Drift(t) + t.journals[id].totalDebit - t.journals[id].totalCredit
  {
    var t' := WithStatus(t, id, Posted, approver, poster);
    var j := t.journals[id];
    assert LinkOk(t, id);
    var other := if j.reversedBy.Some? then j.reversedBy.value else id;
    assert LinkOk(t, other);
    EvenSetSame(t.order, t.journals, t'.journals);
    var even := EvenSet(t.order, t.journals);
    EvenStep(t.order, t.journals, Position(t.order, id));
    WeightSumUpdate(t.order, t.journals, even, t'.journals, even, id);
  }

  lemma PostedDrift(t: Tables, id: JournalId, approver: string, poster: string)
    requires Inv(t) && DriftOk(t) && id in t.journals && t.journals[id].status != Posted
    ensures DriftOk(WithStatus(t, id, Posted, approver, poster).(accounts := AddNets(t.accounts, ItemsOf(t.rows, id), {})))
  {
    var items := ItemsOf(t.rows, id);
    assert HeaderOk(t, id);
    PostedWeights(t, id, approver, poster);
    forall i | i in items ensures i.account in t.accounts { InItemsOf(t.rows, id, i); }
    SumBalancesAddNets(t.accounts, items);
  }

  lemma {:induction false} DropEven(order: seq<JournalId>, js: map<JournalId, Journal>, id: JournalId)
    requires Distinct(order) && forall k | k in order :: k in js && js[k].reverses != Some(id)
    ensures EvenSet(Drop(order, id), js - {id}) == EvenSet(order, js) - {id}
  {
    if order != [] {
      var init, last := order[..|order| - 1], order[|order| - 1];
      forall k | k in init ensures k in order {}
      DropEven(init, js, id);
      EvenSetWithin(init, js);
      assert order == init + [last] && last in order;
      EvenSetSnoc(init, last, js);
      if last != id {
        assert Drop(order, id) == Drop(init, id) + [last];
        EvenSetSnoc(Drop(init, id), last, js - {id});
        EvenNextWithout(EvenSet(init, js), js, last, id);
      } else {
        assert Drop(order, id) == Drop(init, id);
      }
    }
  }

  lemma EvenNextWithout(even: set<JournalId>, js: map<JournalId, Journal>, k: JournalId, id: JournalId)
    requires k in js && k != id && js[k].reverses != Some(id)
    ensures (even + EvenNext(even, js, k)) - {id} == (even - {id}) + EvenNext(even - {id}, js - {id}, k)
  {}

  lemma EvenSetSnoc(init: seq<JournalId>, k: JournalId, js: map<JournalId, Journal>)
    ensures EvenSet(init + [k], js)
         == EvenSet(init, js) + EvenNext(EvenSet(init, js), js, k)
  { assert (init + [k])[..|init|] == init; }

  lemma {:induction false} DropWeights(order: seq<JournalId>, js: map<JournalId, Journal>, even: set<JournalId>, id: JournalId)
    requires id in js ==> js[id].status != Posted
    ensures WeightSum(Drop(order, id), js - {id}, even - {id}) == WeightSum(order, js, even)
  {
    if order != [] {
      var init, last := order[..|order| - 1], order[|order| - 1];
      DropWeights(init, js, even, id);
      var d := Drop(init, id);
      if last != id {
        assert (d + [last])[..|d|] == d;
      } else {
        assert Drop(order, id) == d;
      }
    }
  }

  lemma DeletedDrift(t: Tables, id: JournalId)
    requires Inv(t) && DriftOk(t) && id in t.journals && t.journals[id].status == Draft
    ensures DriftOk(Deleted(t, id))
  {
    assert LinkOk(t, id);
    forall k | k in t.order ensures k in t.journals && t.journals[k].reverses != Some(id) { assert LinkOk(t, k); }
    DropEven(t.order, t.journals, id);
    DropWeights(t.order, t.journals, EvenSet(t.order, t.journals), id);
  }

  lemma LinkedEven(init: seq<JournalId>, js: map<JournalId, Journal>, js': map<JournalId, Journal>, id: JournalId, newId: JournalId)
    requires newId !in init && id in init && newId in js && newId in js'
    requires forall k | k in init :: k in js && k in js' && js[k].reverses == js'[k].reverses
    requires js[newId].reverses == None && js'[newId].reverses == Some(id)
    ensures var b := EvenSet(init, js);
            && newId !in b
            && EvenSet(init + [newId], js) == b + {newId}
            && EvenSet(init + [newId], js') == if id in b then b else b + {newId}
  {
    EvenSetSame(init, js, js');
    EvenSetWithin(init, js);
    EvenSetSnoc(init, newId, js);
    EvenSetSnoc(init, newId, js');
  }

  /** Before the link original and reversal weigh opposite amounts or cancel; after it the pair weighs the same. */
  lemma LinkedPair(t: Tables, id: JournalId, newId: JournalId, b: set<JournalId>)
    requires Linkable(t, id, newId) && newId !in b
    ensures var t' := Linked(t, id, newId);
            var e, e' := b + {newId}, if id in b then b else b + {newId};
            && Weight(t.journals, e, id) + Weight(t.journals, e, newId)
               == Weight(t'.journals, e', id) + Weight(t'.journals, e', newId)
            && forall k | k != id && k != newId :: Weight(t.journals, e, k) == Weight(t'.journals, e', k)
  {}

  lemma WeightSumSnoc(init: seq<JournalId>, k: JournalId, js: map<JournalId, Journal>, even: set<JournalId>)
    ensures WeightSum(init + [k], js, even) == WeightSum(init, js, even) + Weight(js, even, k)
  { assert (init + [k])[..|init|] == init; }

  lemma PairMoves(init: seq<JournalId>, id: JournalId, newId: JournalId, js: map<JournalId, Journal>, e: set<JournalId>,
                  js': map<JournalId, Journal>, e': set<JournalId>)
    requires Distinct(init) && id in init && newId !in init
    requires Weight(js, e, id) + Weight(js, e, newId) == Weight(js', e', id) + Weight(js', e', newId)
    requires forall k | k != id && k != newId :: Weight(js, e, k) == Weight(js', e', k)
    ensures WeightSum(init + [newId], js, e) == WeightSum(init + [newId], js', e')
  {
    WeightSumUpdate(init, js, e, js', e', id);
    WeightSumSnoc(init, newId, js, e);
    WeightSumSnoc(init, newId, js', e');
  }

  /** Linking a reversal to its original closes one open chain and its halala with it. */
  lemma LinkedDrift(t: Tables, id: JournalId, newId: JournalId)
    requires OrderOk(t) && DriftOk(t) && Linkable(t, id, newId) && t.order != [] && t.order[|t.order| - 1] == newId
    ensures DriftOk(Linked(t, id, newId))
  {
    var t' := Linked(t, id, newId);
    var init := t.order[..|t.order| - 1];
    assert t.order == init + [newId];
    assert newId !in init && id in init && Distinct(init);
    LinkedEven(init, t.journals, t'.journals, id, newId);
    var b := EvenSet(init, t.journals);
    LinkedPair(t, id, newId, b);
    PairMoves(init, id, newId, t.journals, b + {newId}, t'.journals, if id in b then b else b + {newId});
  }

  lemma ReverseDrift(t: Tables, e: Event)
    requires Inv(t) && DriftOk(t) && e.Reverse? && Enabled(t, e) && e.lost == {}
    ensures DriftOk(Apply(t, e))
  {
    ReversedPair(t, e);
    InsertedBalances(t, e.ctx, SpecOf(t, e), e.newId, e.number, {});
    InsertedDrift(t, e.ctx, SpecOf(t, e), e.newId, e.number);
    LinkedDrift(InsertedBy(t, e), e.id, e.newId);
  }

  lemma ApprovedDrift(t: Tables, id: JournalId, approver: string)
    requires OrderOk(t) && DriftOk(t) && id in t.journals && t.journals[id].status == Draft
    ensures DriftOk(WithStatus(t, id, Approved, approver, t.journals[id].postedBy))
  {
    var t' := WithStatus(t, id, Approved, approver, t.journals[id].postedBy);
    EvenSetSame(t.order, t.journals, t'.journals);
    var even := EvenSet(t.order, t.journals);
    WeightSumSame(t.order, t.journals, even, t'.journals, even);
  }

  lemma StepDrift(t: Tables, e: Event)
    requires Inv(t) && DriftOk(t) && Enabled(t, e) && (e.Post? || e.Reverse? ==> e.lost == {})
    ensures DriftOk(Apply(t, e))
  {
    match e
    case Post(ctx, spec, id, number, _) => InsertedDrift(t, ctx, spec, id, number);
    case Approve(id, u) => ApprovedDrift(t, id, ActorOf(u));
    case PostApproved(_, id, u, _) => PostedDrift(t, id, t.journals[id].approvedBy, ActorOf(u));
    case ApprovePost(_, id, u, _) => PostedDrift(t, id, ActorOf(u), ActorOf(u));
    case Delete(id, u) => DeletedDrift(t, id);
    case Reverse(_, _, _, _, _, _, _) => ReverseDrift(t, e);
  }

  lemma {:induction false} RunDrift(t: Tables, es: seq<Event>)
    requires Inv(t) && DriftOk(t) && IsRun(t, es) && NothingLost(es)
    ensures Inv(After(t, es)) && DriftOk(After(t, es))
    decreases |es|
  {
    if es != [] {
      StepKeeps(t, es[0]);
      StepDrift(t, es[0]);
      RunDrift(Apply(t, es[0]), es[1..]);
    }
  }

  // ----- The bound -----

  lemma {:induction false} WeightBound(order: seq<JournalId>, js: map<JournalId, Journal>, even: set<JournalId>, tips: set<JournalId>)
    requires Distinct(order)
    requires forall k | k in order :: if k in tips then -1 <= Weight(js, even, k) <= 1 else Weight(js, even, k) == 0
    ensures -|tips| <= WeightSum(order, js, even) <= |tips|
  {
    if order != [] {
      var init, last := order[..|order| - 1], order[|order| - 1];
      assert order == init + [last];
      WeightBound(init, js, even, tips - {last});
    }
  }

  /**
   * In every reachable state the balances sum to at most one halala per reversal chain of odd
   * length, hence to at most one per posted journal.
   */
  lemma TrialBalanceBound(t: Tables, es: seq<Event>)
    requires Fresh(t) && IsRun(t, es) && NothingLost(es)
    ensures Inv(After(t, es))
    ensures var t' := After(t, es);
            -|OddTips(t')| <= SumBalances(t'.accounts) <= |OddTips(t')| && |OddTips(t')| <= |PostedIds(t')|
  {
    FreshInv(t);
    SumOfZeros(t.accounts);
    RunDrift(t, es);
    var t' := After(t, es);
    var even := EvenSet(t'.order, t'.journals);
    forall k | k in t'.order
      ensures if k in OddTips(t') then -1 <= Weight(t'.journals, even, k) <= 1 else Weight(t'.journals, even, k) == 0
    {
      EvenIsOddLength(t', k);
      assert HeaderOk(t', k);
    }
    WeightBound(t'.order, t'.journals, even, OddTips(t'));
    SubsetSize(OddTips(t'), PostedIds(t'));
  }

  lemma {:induction false} SumOfZeros(m: map<AccountId, int>)
    requires forall a | a in m :: m[a] == 0
    ensures SumBalances(m) == 0
    decreases |m|
  {
    if m != map[] {
      var a :| a in m && SumBalances(m) == m[a] + SumBalances(m - {a});
      SumOfZeros(m - {a});
    }
  }

  lemma SubsetSize(a: set<JournalId>, b: set<JournalId>)
    requires a <= b
    ensures |a| <= |b|
  {
    assert b == a + (b - a);
  }
}
