/** What the history of a ledger can look like: immutability, maker/checker, period locks, reversals. */
module LedgerHistory {
  import opened Text
  import opened LedgerTables
  import opened LedgerSums
  import opened LedgerInvariant
  import opened LedgerRules

  function Rank(s: Status): nat { match s case Draft => 0 case Approved => 1 case Posted => 2 }

  /** The columns no operation rewrites. */
  predicate SameCore(a: Journal, b: Journal) {
    && a.number == b.number && a.date == b.date && a.refType == b.refType && a.refId == b.refId
    && a.totalDebit == b.totalDebit && a.totalCredit == b.totalCredit && a.createdBy == b.createdBy
  }

  predicate LinkKept(a: Option<JournalId>, b: Option<JournalId>) { a.Some? ==> b == a }

  /** How the row of one journal may differ between an earlier and a later state. */
  predicate Evolved(a: Journal, b: Journal) {
    && SameCore(a, b) && Rank(a.status) <= Rank(b.status)
    && LinkKept(a.reversedBy, b.reversedBy) && LinkKept(a.reverses, b.reverses)
    && (a.status == Posted ==> a.approvedBy == b.approvedBy && a.postedBy == b.postedBy && a.reverses == b.reverses)
  }

  predicate Touches(e: Event, id: JournalId) { e.Delete? && e.id == id }

  /**
   * One step: a journal that is not deleted keeps its core columns and entries and moves forward
   * only; a journal past draft is never deleted.
   */
  lemma StepHistory(t: Tables, e: Event, id: JournalId)
    requires Enabled(t, e) && id in t.journals
    ensures t.journals[id].status != Draft ==> !Touches(e, id)
    ensures !Touches(e, id) ==>
              var t' := Apply(t, e);
              && id in t'.journals && Evolved(t.journals[id], t'.journals[id])
              && ItemsOf(t'.rows, id) == ItemsOf(t.rows, id)
  {
    match e
    case Post(ctx, spec, newId, number, lost) => InsertedHistory(t, ctx, spec, newId, number, lost, id);
    case Approve(_, _) =>
    case PostApproved(_, _, _, _) =>
    case ApprovePost(_, _, _, _) =>
    case Delete(d, _) => ItemsOfWithout(t.rows, d, id);
    case Reverse(ctx, original, u, date, newId, number, lost) =>
      var spec := ReversalSpec(original, ItemsOf(t.rows, original), date, ReverserOf(u));
      InsertedHistory(t, ctx, spec, newId, number, lost, id);
      LinkedHistory(Inserted(t, ctx, spec, newId, number, Plan(ctx, spec).value, lost), original, newId, id);
  }

  /** An insert leaves every earlier journal and its entries as they were. */
  lemma InsertedHistory(t: Tables, ctx: Ctx, s: Spec, newId: JournalId, number: string, lost: set<AccountId>, id: JournalId)
    requires id in t.journals && newId !in t.journals && Plan(ctx, s).Ok?
    ensures var t' := Inserted(t, ctx, s, newId, number, Plan(ctx, s).value, lost);
            id in t'.journals && t'.journals[id] == t.journals[id] && ItemsOf(t'.rows, id) == ItemsOf(t.rows, id)
  { ItemsOfAppend(t.rows, newId, Plan(ctx, s).value, id); }

  lemma LinkedHistory(t: Tables, original: JournalId, newId: JournalId, id: JournalId)
    requires original in t.journals && newId in t.journals && id in t.journals && original != newId
    ensures var t' := Linked(t, original, newId);
            && id in t'.journals && t'.rows == t.rows
            && t'.journals[id] == t.journals[id].(
                 reversedBy := if id == original then Some(newId) else t.journals[id].reversedBy,
                 reverses := if id == newId then Some(original) else t.journals[id].reverses)
  {}

  /**
   * Over any run in which the journal is not deleted, its core columns and entries stay and its
   * status only moves draft -> approved -> posted.
   */
  lemma {:induction false} RunHistory(t: Tables, es: seq<Event>, id: JournalId)
    requires IsRun(t, es) && id in t.journals
    requires forall e | e in es :: !Touches(e, id)
    ensures var t' := After(t, es);
            && id in t'.journals && Evolved(t.journals[id], t'.journals[id])
            && ItemsOf(t'.rows, id) == ItemsOf(t.rows, id)
    decreases |es|
  {
    if es != [] {
      assert es[0] in es;
      StepHistory(t, es[0], id);
      forall e | e in es[1..] ensures e in es {}
      RunHistory(Apply(t, es[0]), es[1..], id);
    }
  }

  /** A journal past draft is deleted in no run at all. */
  lemma {:induction false} PastDraftUndeletable(t: Tables, es: seq<Event>, id: JournalId)
    requires IsRun(t, es) && id in t.journals && t.journals[id].status != Draft
    ensures forall e | e in es :: !Touches(e, id)
    decreases |es|
  {
    if es != [] {
      StepHistory(t, es[0], id);
      PastDraftUndeletable(Apply(t, es[0]), es[1..], id);
      assert es == [es[0]] + es[1..];
    }
  }

  lemma PostedStays(a: Journal, b: Journal)
    requires Evolved(a, b) && a.status == Posted
    ensures b.(reversedBy := a.reversedBy) == a
  { assert b.status == Posted; }

  /** Posted journals are immutable: over every run the row keeps all but its reversed-by link, and its entries stay. */
  lemma PostedImmutable(t: Tables, es: seq<Event>, id: JournalId)
    requires IsRun(t, es) && id in t.journals && t.journals[id].status == Posted
    ensures var t' := After(t, es);
            && id in t'.journals
            && t'.journals[id].(reversedBy := t.journals[id].reversedBy) == t.journals[id]
            && LinkKept(t.journals[id].reversedBy, t'.journals[id].reversedBy)
            && ItemsOf(t'.rows, id) == ItemsOf(t.rows, id)
  {
    PastDraftUndeletable(t, es, id);
    RunHistory(t, es, id);
    PostedStays(t.journals[id], After(t, es).journals[id]);
  }

  // ----- Maker/checker -----

  /** The journal an event takes out of draft, or into posted, and the user who does it. */
  predicate Decides(e: Event, id: JournalId, u: User) {
    match e
    case Approve(i, w) => i == id && w == u
    case PostApproved(_, i, w, _) => i == id && w == u
    case ApprovePost(_, i, w, _) => i == id && w == u
    case _ => false
  }

  /** A status changes in no other way. */
  lemma OnlyDecisionsMove(t: Tables, e: Event, id: JournalId)
    requires Enabled(t, e) && id in t.journals && !Touches(e, id)
    requires Apply(t, e).journals[id].status != t.journals[id].status
    ensures exists u :: Decides(e, id, u)
  {
    match e
    case Approve(i, u) => assert Decides(e, id, u);
    case PostApproved(_, i, u, _) => assert Decides(e, id, u);
    case ApprovePost(_, i, u, _) => assert Decides(e, id, u);
    case Post(_, _, _, _, _) =>
    case Delete(_, _) =>
    case Reverse(_, _, _, _, _, _, _) =>
  }

  lemma DecidedByOther(t: Tables, e: Event, id: JournalId, u: User)
    requires Enabled(t, e) && Decides(e, id, u)
    ensures id in t.journals && !OwnWork(t.journals[id], u)
  { AllowedIff(t, e); }

  /**
   * A draft inserted by a named author is approved or posted later only by somebody else, or by an
   * admin or developer, whatever happened in between.
   */
  lemma MakerIsNotChecker(t: Tables, create: Event, es: seq<Event>, decide: Event, u: User)
    requires IsRun(t, [create] + es + [decide])
    requires create.Post? && create.spec.draft && create.spec.author != ""
    requires (forall e | e in es :: !Touches(e, create.newId)) && Decides(decide, create.newId, u)
    ensures (if u.username != "" then u.username else u.name) != create.spec.author || u.role == "admin" || u.developer
  {
    var run := [create] + es + [decide];
    assert run[0] == create && run[1..] == es + [decide];
    var t1 := Apply(t, create);
    PostedRow(t, create);
    RunSplit(t1, es, [decide]);
    RunHistory(t1, es, create.newId);
    DecidedByOther(After(t1, es), decide, create.newId, u);
  }

  lemma {:induction false} RunSplit(t: Tables, a: seq<Event>, b: seq<Event>)
    ensures IsRun(t, a + b) <==> IsRun(t, a) && IsRun(After(t, a), b)
    ensures IsRun(t, a + b) ==> After(t, a + b) == After(After(t, a), b)
    decreases |a|
  {
    if a == [] {
      assert a + b == b;
    } else {
      assert (a + b)[0] == a[0] && (a + b)[1..] == a[1..] + b;
      if Enabled(t, a[0]) { RunSplit(Apply(t, a[0]), a[1..], b); }
    }
  }

  // ----- Period locks -----

  /** Post and approvePost may be forced into a softly closed period; insertions and reversals never. */
  ghost predicate GateOpen(ps: seq<Period>, d: Date, e: Event) {
    || PeriodOpen(ps, d)
    || ((e.PostApproved? || e.ApprovePost?) && ForcedByRight(ps, d, e.force, e.user))
  }

  /** The event inserts or decides this journal, and the date its row then carries passes the gate. */
  ghost predicate GatedPosting(t: Tables, e: Event, id: JournalId)
    requires Enabled(t, e)
  {
    && !e.Approve? && !e.Delete?
    && id == (if e.Post? || e.Reverse? then e.newId else e.id)
    && id in Apply(t, e).journals && GateOpen(e.ctx.periods, Apply(t, e).journals[id].date, e)
  }

  predicate IsPosted(t: Tables, id: JournalId) { id in t.journals && t.journals[id].status == Posted }

  lemma StepIntoPosted(t: Tables, e: Event, id: JournalId)
    requires Enabled(t, e) && !IsPosted(t, id) && IsPosted(Apply(t, e), id)
    ensures GatedPosting(t, e, id)
  {
    match e
    case Post(ctx, spec, _, _, _) =>
      AcceptedIff(ctx, spec);
      PostedRow(t, e);
    case PostApproved(_, _, _, _) => AllowedIff(t, e);
    case ApprovePost(_, _, _, _) => AllowedIff(t, e);
    case Reverse(_, _, _, _, _, _, _) => ReversalGated(t, e);
    case _ =>
  }

  lemma ReversalGated(t: Tables, e: Event)
    requires e.Reverse? && Enabled(t, e)
    ensures e.newId in Apply(t, e).journals && PeriodOpen(e.ctx.periods, Apply(t, e).journals[e.newId].date)
  { AcceptedIff(e.ctx, SpecOf(t, e)); }

  /** Over any run, whichever step makes a journal posted passes the period gate with the date it is stored under. */
  lemma EveryPostingGated(t: Tables, es: seq<Event>, id: JournalId, n: nat)
    requires IsRun(t, es) && n < |es|
    ensures IsRun(t, es[..n]) && IsRun(t, es[..n + 1])
    ensures !IsPosted(After(t, es[..n]), id) && IsPosted(After(t, es[..n + 1]), id) ==>
              Enabled(After(t, es[..n]), es[n]) && GatedPosting(After(t, es[..n]), es[n], id)
  {
    assert es == es[..n] + es[n..] && es[..n + 1] == es[..n] + [es[n]] && es == es[..n + 1] + es[n + 1..];
    RunSplit(t, es[..n], es[n..]);
    RunSplit(t, es[..n + 1], es[n + 1..]);
    RunSplit(t, es[..n], [es[n]]);
    var before := After(t, es[..n]);
    assert [es[n]][1..] == [];
    assert After(before, [es[n]]) == Apply(before, es[n]);
    if !IsPosted(before, id) && IsPosted(Apply(before, es[n]), id) { StepIntoPosted(before, es[n], id); }
  }

  lemma TailRun(t: Tables, es: seq<Event>, n: nat)
    requires 0 < n <= |es| && IsRun(t, es)
    requires IsRun(Apply(t, es[0]), es[1..][..n - 1])
    ensures IsRun(t, es[..n]) && After(t, es[..n]) == After(Apply(t, es[0]), es[1..][..n - 1])
  { assert es[..n][0] == es[0] && es[..n][1..] == es[1..][..n - 1]; }

  /** A journal posted at the end and not at the start was made posted by some step, which the gate let through. */
  lemma {:induction false} PostedSomewhere(t: Tables, es: seq<Event>, id: JournalId) returns (n: nat)
    requires IsRun(t, es) && !IsPosted(t, id) && IsPosted(After(t, es), id)
    ensures n < |es| && IsRun(t, es[..n]) && IsRun(t, es[..n + 1])
    ensures !IsPosted(After(t, es[..n]), id) && IsPosted(After(t, es[..n + 1]), id)
    ensures Enabled(After(t, es[..n]), es[n]) && GatedPosting(After(t, es[..n]), es[n], id)
    decreases |es|
  {
    var t1 := Apply(t, es[0]);
    if IsPosted(t1, id) {
      n := 0;
      TailRun(t, es, 1);
    } else {
      var m := PostedSomewhere(t1, es[1..], id);
      n := m + 1;
      TailRun(t, es, m + 1);
      TailRun(t, es, m + 2);
    }
    EveryPostingGated(t, es, id, n);
  }

  // ----- Reversals -----

  function NetOnSlice(items: seq<Item>, a: AccountId, d: Dims): int {
    if items == [] then 0
    else
      var i := items[|items| - 1];
      NetOnSlice(items[..|items| - 1], a, d) + (if i.account == a && i.dims == d then i.debit - i.credit else 0)
  }

  lemma {:induction false} MirrorCancels(codes: map<string, AccountId>, items: seq<Item>, a: AccountId, d: Dims)
    requires forall i | i in items :: i.code in codes && codes[i.code] == i.account
    ensures NetOnSlice(Mirrored(codes, items), a, d) == -NetOnSlice(items, a, d)
  {
    if items != [] {
      var init := items[..|items| - 1];
      forall i | i in init ensures i in items {}
      MirrorCancels(codes, init, a, d);
      assert Mirrored(codes, items)[..|items| - 1] == Mirrored(codes, init);
    }
  }

  /**
   * After a reversal, and after any further run, original and reversal cancel in every
   * (account, dimensions) slice, provided the codes still resolved to the stored accounts.
   */
  lemma ReversalCancels(t: Tables, e: Event, es: seq<Event>, a: AccountId, d: Dims)
    requires Structure(t) && e.Reverse? && IsRun(t, [e] + es)
    requires forall i | i in ItemsOf(t.rows, e.id) :: i.code in e.ctx.codes ==> e.ctx.codes[i.code] == i.account
    ensures var rows := After(t, [e] + es).rows;
            NetOnSlice(ItemsOf(rows, e.id), a, d) + NetOnSlice(ItemsOf(rows, e.newId), a, d) == 0
  {
    assert ([e] + es)[0] == e && ([e] + es)[1..] == es;
    ReversalItems(t, e, a, d);
    var t1 := Apply(t, e);
    PostedImmutable(t1, es, e.id);
    PostedImmutable(t1, es, e.newId);
  }

  lemma ReversalRows(t: Tables, e: Event)
    requires RowsOk(t) && e.Reverse? && Enabled(t, e)
    ensures var t' := Apply(t, e);
            && IsPosted(t', e.id) && IsPosted(t', e.newId)
            && ItemsOf(t'.rows, e.id) == ItemsOf(t.rows, e.id)
            && ItemsOf(t'.rows, e.newId) == Plan(e.ctx, SpecOf(t, e)).value
  {
    var plan := Plan(e.ctx, SpecOf(t, e)).value;
    ItemsOfAppend(t.rows, e.newId, plan, e.id);
    ItemsOfAppend(t.rows, e.newId, plan, e.newId);
    ItemsOfAbsent(t.rows, e.newId);
  }

  lemma ReversalItems(t: Tables, e: Event, a: AccountId, d: Dims)
    requires Structure(t) && e.Reverse? && Enabled(t, e)
    requires forall i | i in ItemsOf(t.rows, e.id) :: i.code in e.ctx.codes ==> e.ctx.codes[i.code] == i.account
    ensures var t' := Apply(t, e);
            && IsPosted(t', e.id) && IsPosted(t', e.newId)
            && NetOnSlice(ItemsOf(t'.rows, e.id), a, d) + NetOnSlice(ItemsOf(t'.rows, e.newId), a, d) == 0
  {
    ReversalRows(t, e);
    ReversalPlan(t, e.ctx, e.id, e.date, ReverserOf(e.user));
    MirrorCancels(e.ctx.codes, ItemsOf(t.rows, e.id), a, d);
  }

  /** A journal is reversed at most once in any run. */
  lemma ReversedAtMostOnce(t: Tables, e: Event, es: seq<Event>, again: Event)
    requires e.Reverse? && IsRun(t, [e] + es + [again])
    ensures !(again.Reverse? && again.id == e.id)
  {
    var run := [e] + es + [again];
    assert run[0] == e && run[1..] == es + [again];
    var t1 := Apply(t, e);
    RunSplit(t1, es, [again]);
    PostedImmutable(t1, es, e.id);
    assert Enabled(After(t1, es), again);
  }
}
