/**
 * The image sourcing queue of lib/image-sourcing-worker.js:121-217: any number of workers that claim
 * rows under a lock and then update rows and job counters one statement at a time.
 */
module ImageQueue {
  import opened Text

  const MAX_ATTEMPTS := 5
  const BATCH_SIZE := 10

  datatype Status = Pending | Running | Done | Failed

  datatype Item = Item(job: string, menu: string, status: Status, attempts: nat, dueAt: nat)

  datatype Job = Job(total: nat, processed: nat, matched: nat, queued: nat, done: bool, dryRun: bool)

  datatype Queue = Queue(items: seq<Item>, jobs: map<string, Job>)

  predicate Terminal(s: Status) { s == Done || s == Failed }

  // ----- The statements -----

  function WithItem(q: Queue, i: nat, status: Status, attempts: nat, dueAt: nat): Queue
    requires i < |q.items|
  { q.(items := q.items[i := q.items[i].(status := status, attempts := attempts, dueAt := dueAt)]) }

  function WithStatus(q: Queue, i: nat, status: Status): Queue
    requires i < |q.items|
  { WithItem(q, i, status, q.items[i].attempts, q.items[i].dueAt) }

  /** processed_items + 1, matched_items + m, queued_for_review + m. */
  function Counted(q: Queue, job: string, matched: bool): Queue {
    if job !in q.jobs then q
    else
      var j := q.jobs[job];
      q.(jobs := q.jobs[job := j.(processed := j.processed + 1, matched := j.matched + One(matched),
                                  queued := j.queued + One(matched))])
  }

  predicate ReachesTotal(q: Queue, job: string) {
    job in q.jobs && q.jobs[job].total > 0 && q.jobs[job].processed >= q.jobs[job].total
  }

  function Closed(q: Queue, job: string): Queue {
    if job !in q.jobs then q else q.(jobs := q.jobs[job := q.jobs[job].(done := true)])
  }

  // ----- Workers -----

  /**
   * Where a worker stands between two statements; `row` is the item while it is in the try block,
   * None in the catch block.
   */
  datatype Phase =
    | Free
    | Counting(job: string, matched: bool, row: Option<nat>)
    | Checking(job: string, row: Option<nat>)
    | Closing(job: string, row: Option<nat>)

  /**
   * What failing statements left behind: counts of rows that were then put back (`again`), counts that
   * never happened (`lost`), jobs whose completion was not looked at after a count (`missed`), rows
   * left running (`stuck`).
   */
  datatype History = History(again: multiset<string>, lost: multiset<string>, missed: set<string>, stuck: set<nat>)

  const CLEAN := History(multiset{}, multiset{}, {}, {})

  datatype World = World(q: Queue, claims: seq<set<nat>>, phases: seq<Phase>, hist: History)

  datatype Step =
    | Claim(w: nat, picked: set<nat>, now: nat)     // SELECT ... FOR UPDATE SKIP LOCKED and its updates, one transaction
    | Finish(w: nat, i: nat, matched: bool)
    | Retry(w: nat, i: nat, dueAt: nat)             // a fetch, a decode or a statement before the finish threw
    | Count(w: nat)
    | Check(w: nat)
    | Close(w: nat)
    | Recover(w: nat, dueAt: nat)                   // a statement after the finish threw: the catch block puts the row back
    | Abandon(w: nat)                               // a statement of the catch block threw: the batch ends

  function RowOf(p: Phase): Option<nat> { if p.Free? then None else p.row }

  predicate Enabled(x: World, s: Step) {
    && s.w < |x.phases| == |x.claims|
    && match s
       case Claim(w, picked, now) =>
         && x.phases[w] == Free && x.claims[w] == {} && |picked| <= BATCH_SIZE
         && forall i | i in picked :: i < |x.q.items| && x.q.items[i].status == Pending && x.q.items[i].dueAt <= now
       case Finish(w, i, _) => x.phases[w] == Free && i in x.claims[w] && i < |x.q.items|
       case Retry(w, i, _) => x.phases[w] == Free && i in x.claims[w] && i < |x.q.items|
       case Count(w) => x.phases[w].Counting?
       case Check(w) => x.phases[w].Checking?
       case Close(w) => x.phases[w].Closing?
       case Recover(w, _) => RowOf(x.phases[w]).Some? && RowOf(x.phases[w]).value < |x.q.items|
       case Abandon(w) => x.phases[w] != Free || x.claims[w] != {}
  }

  function Claimed(items: seq<Item>, picked: set<nat>): (r: seq<Item>)
    ensures |r| == |items|
  { seq(|items|, i requires 0 <= i < |items| => if i in picked then items[i].(status := Running) else items[i]) }

  /** The catch block's update: one more attempt, back to pending or failed for good. */
  function PutBack(q: Queue, i: nat, dueAt: nat): Queue
    requires i < |q.items|
  {
    var n := q.items[i].attempts + 1;
    WithItem(q, i, if n >= MAX_ATTEMPTS then Failed else Pending, n, dueAt)
  }

  /** A row that failed for good is counted next. */
  function AfterPutBack(q: Queue, i: nat): Phase
    requires i < |q.items|
  { if q.items[i].attempts + 1 >= MAX_ATTEMPTS then Counting(q.items[i].job, false, None) else Free }

  function Recovered(h: History, p: Phase): History {
    match p
    case Checking(job, _) => h.(again := h.again + multiset{job}, missed := h.missed + {job})
    case Closing(job, _) => h.(again := h.again + multiset{job}, missed := h.missed + {job})
    case _ => h
  }

  function Abandoned(h: History, p: Phase, left: set<nat>): History {
    match p
    case Free => h.(stuck := h.stuck + left)
    case Counting(job, _, _) => h.(lost := h.lost + multiset{job}, stuck := h.stuck + left)
    case Checking(job, _) => h.(missed := h.missed + {job}, stuck := h.stuck + left)
    case Closing(job, _) => h.(missed := h.missed + {job}, stuck := h.stuck + left)
  }

  function Apply(x: World, s: Step): World
    requires Enabled(x, s)
  {
    match s
    case Claim(w, picked, _) =>
      x.(q := x.q.(items := Claimed(x.q.items, picked)), claims := x.claims[w := picked])
    case Finish(w, i, matched) =>
      x.(q := WithStatus(x.q, i, Done), claims := x.claims[w := x.claims[w] - {i}],
         phases := x.phases[w := Counting(x.q.items[i].job, matched, Some(i))])
    case Retry(w, i, dueAt) =>
      x.(q := PutBack(x.q, i, dueAt), claims := x.claims[w := x.claims[w] - {i}],
         phases := x.phases[w := AfterPutBack(x.q, i)])
    case Count(w) =>
      var p := x.phases[w];
      x.(q := Counted(x.q, p.job, p.matched), phases := x.phases[w := Checking(p.job, p.row)])
    case Check(w) =>
      var p := x.phases[w];
      x.(phases := x.phases[w := if ReachesTotal(x.q, p.job) then Closing(p.job, p.row) else Free])
    case Close(w) =>
      x.(q := Closed(x.q, x.phases[w].job), phases := x.phases[w := Free])
    case Recover(w, dueAt) =>
      var p := x.phases[w];
      x.(q := PutBack(x.q, p.row.value, dueAt), phases := x.phases[w := AfterPutBack(x.q, p.row.value)],
         hist := Recovered(x.hist, p))
    case Abandon(w) =>
      x.(claims := x.claims[w := {}], phases := x.phases[w := Free],
         hist := Abandoned(x.hist, x.phases[w], x.claims[w]))
  }

  // ----- Counting -----

  function CountJob(items: seq<Item>, job: string): nat {
    if items == [] then 0 else CountJob(items[..|items| - 1], job) + One(items[|items| - 1].job == job)
  }

  predicate EndedFor(it: Item, job: string) { it.job == job && Terminal(it.status) }

  function CountTerminal(items: seq<Item>, job: string): nat {
    if items == [] then 0 else CountTerminal(items[..|items| - 1], job) + One(EndedFor(items[|items| - 1], job))
  }

  predicate Owes(p: Phase, job: string) { p.Counting? && p.job == job }

  /** Workers that have ended an item of the job and not counted it yet. */
  function Uncounted(phases: seq<Phase>, job: string): nat {
    if phases == [] then 0 else Uncounted(phases[..|phases| - 1], job) + One(Owes(phases[|phases| - 1], job))
  }

  lemma {:induction false} TerminalUpdate(items: seq<Item>, i: nat, it: Item, job: string)
    requires i < |items| && it.job == items[i].job
    ensures CountTerminal(items[i := it], job) + One(EndedFor(items[i], job)) == CountTerminal(items, job) + One(EndedFor(it, job))
    ensures CountJob(items[i := it], job) == CountJob(items, job)
  {
    var n := |items| - 1;
    if i < n {
      assert items[i := it][..n] == items[..n][i := it];
      TerminalUpdate(items[..n], i, it, job);
    } else {
      assert items[i := it][..n] == items[..n];
    }
  }

  lemma {:induction false} UncountedUpdate(phases: seq<Phase>, w: nat, p: Phase, job: string)
    requires w < |phases|
    ensures Uncounted(phases[w := p], job) + One(Owes(phases[w], job)) == Uncounted(phases, job) + One(Owes(p, job))
  {
    var n := |phases| - 1;
    if w < n {
      assert phases[w := p][..n] == phases[..n][w := p];
      UncountedUpdate(phases[..n], w, p, job);
    } else {
      assert phases[w := p][..n] == phases[..n];
    }
  }

  lemma {:induction false} ClaimedCounts(items: seq<Item>, picked: set<nat>, job: string)
    requires forall i | i in picked && i < |items| :: !Terminal(items[i].status)
    ensures CountTerminal(Claimed(items, picked), job) == CountTerminal(items, job)
    ensures CountJob(Claimed(items, picked), job) == CountJob(items, job)
  {
    if items != [] {
      var n := |items| - 1;
      assert Claimed(items, picked)[..n] == Claimed(items[..n], picked);
      ClaimedCounts(items[..n], picked, job);
    }
  }

  lemma {:induction false} TerminalAtMost(items: seq<Item>, job: string)
    ensures CountTerminal(items, job) <= CountJob(items, job)
    ensures CountTerminal(items, job) == CountJob(items, job)
       <==> forall i | 0 <= i < |items| && items[i].job == job :: Terminal(items[i].status)
  {
    if items != [] {
      var init, last := items[..|items| - 1], items[|items| - 1];
      TerminalAtMost(init, job);
      assert items == init + [last];
      if forall i | 0 <= i < |init| && init[i].job == job :: Terminal(init[i].status) {
        if EndedFor(last, job) || last.job != job {
          forall i | 0 <= i < |items| && items[i].job == job ensures Terminal(items[i].status) {
            if i < |init| { assert init[i] == items[i]; }
          }
        }
      } else {
        var i :| 0 <= i < |init| && init[i].job == job && !Terminal(init[i].status);
        assert items[i] == init[i];
      }
    }
  }

  // ----- The invariant -----

  predicate ItemOk(it: Item) {
    match it.status
    case Pending => it.attempts < MAX_ATTEMPTS
    case Running => it.attempts < MAX_ATTEMPTS
    case Done => it.attempts < MAX_ATTEMPTS
    case Failed => it.attempts == MAX_ATTEMPTS
  }

  /** Every claimed row is running and claimed once. */
  predicate ClaimsOk(x: World) {
    && |x.claims| == |x.phases|
    && (forall w {:trigger x.claims[w]} | 0 <= w < |x.claims| :: AllRunning(x.q.items, x.claims[w]))
    && forall v, w | 0 <= v < w < |x.claims| :: x.claims[v] !! x.claims[w]
  }

  predicate AllRunning(items: seq<Item>, claimed: set<nat>) {
    forall i | i in claimed :: i < |items| && items[i].status == Running
  }

  /** The row a worker has just finished is done and nobody else's. */
  predicate RowsOk(x: World) {
    && (forall w {:trigger x.phases[w]} | 0 <= w < |x.phases| :: HoldsDone(x.q.items, x.phases[w]))
    && forall v, w | 0 <= v < w < |x.phases| :: RowOf(x.phases[v]).Some? ==> RowOf(x.phases[v]) != RowOf(x.phases[w])
  }

  predicate HoldsDone(items: seq<Item>, p: Phase) {
    RowOf(p).Some? ==> var i := RowOf(p).value; i < |items| && items[i].status == Done && items[i].job == p.job
  }

  predicate ClaimedBySome(x: World, i: nat) { exists w | 0 <= w < |x.claims| :: i in x.claims[w] }

  /** A running row is in some worker's hands or was left by an abandoned batch. */
  predicate RunningOk(x: World) {
    forall i | 0 <= i < |x.q.items| && x.q.items[i].status == Running :: i in x.hist.stuck || ClaimedBySome(x, i)
  }

  predicate InHand(p: Phase, job: string) { (p.Checking? || p.Closing?) && p.job == job }

  /** The counters of a job agree with its rows, up to the increments under way, repeated and lost. */
  predicate JobOk(x: World, job: string)
    requires job in x.q.jobs
  {
    var j := x.q.jobs[job];
    && j.processed + Uncounted(x.phases, job) + x.hist.lost[job] == CountTerminal(x.q.items, job) + x.hist.again[job]
    && j.total == CountJob(x.q.items, job)
    && j.matched == j.queued <= j.processed
    && (j.done ==> j.total > 0 && j.processed >= j.total)
    && (j.total > 0 && j.processed >= j.total ==>
          j.done || job in x.hist.missed || exists w | 0 <= w < |x.phases| :: InHand(x.phases[w], job))
  }

  predicate JobsOk(x: World) { forall job {:trigger JobOk(x, job)} | job in x.q.jobs :: JobOk(x, job) }

  predicate ClosingOk(x: World) {
    forall w | 0 <= w < |x.phases| && x.phases[w].Closing? :: ReachesTotal(x.q, x.phases[w].job)
  }

  predicate Inv(x: World) {
    && ClaimsOk(x) && RowsOk(x) && RunningOk(x) && JobsOk(x) && ClosingOk(x)
    && forall i | 0 <= i < |x.q.items| :: ItemOk(x.q.items[i])
  }

  lemma ClaimsKept(x: World, s: Step)
    requires ClaimsOk(x) && RowsOk(x) && Enabled(x, s)
    ensures ClaimsOk(Apply(x, s))
  {
    var y := Apply(x, s);
    forall w | 0 <= w < |y.claims| ensures AllRunning(y.q.items, y.claims[w]) {
      assert AllRunning(x.q.items, x.claims[w]) && AllRunning(x.q.items, x.claims[s.w]);
      assert HoldsDone(x.q.items, x.phases[s.w]);
      if (s.Finish? || s.Retry?) && w != s.w { assert x.claims[w] !! x.claims[s.w]; }
    }
    forall v, w | 0 <= v < w < |y.claims| ensures y.claims[v] !! y.claims[w] {
      assert x.claims[v] !! x.claims[w];
      assert AllRunning(x.q.items, x.claims[v]) && AllRunning(x.q.items, x.claims[w]);
    }
  }

  lemma RowsKept(x: World, s: Step)
    requires ClaimsOk(x) && RowsOk(x) && Enabled(x, s)
    ensures RowsOk(Apply(x, s))
  {
    var y := Apply(x, s);
    forall w | 0 <= w < |y.phases| ensures HoldsDone(y.q.items, y.phases[w]) {
      assert HoldsDone(x.q.items, x.phases[w]) && HoldsDone(x.q.items, x.phases[s.w]);
      assert AllRunning(x.q.items, x.claims[s.w]);
      OtherRow(x, w, s.w);
    }
    forall v, w | 0 <= v < w < |y.phases| ensures RowOf(y.phases[v]).Some? ==> RowOf(y.phases[v]) != RowOf(y.phases[w]) {
      assert HoldsDone(x.q.items, x.phases[v]) && HoldsDone(x.q.items, x.phases[w]);
      assert AllRunning(x.q.items, x.claims[s.w]);
      OtherRow(x, v, w);
    }
  }

  lemma OtherRow(x: World, v: nat, w: nat)
    requires RowsOk(x) && v < |x.phases| && w < |x.phases|
    ensures v != w && RowOf(x.phases[v]).Some? ==> RowOf(x.phases[v]) != RowOf(x.phases[w])
  {}

  lemma RunningKept(x: World, s: Step)
    requires ClaimsOk(x) && RowsOk(x) && RunningOk(x) && Enabled(x, s)
    ensures RunningOk(Apply(x, s))
  {
    var y := Apply(x, s);
    forall i | 0 <= i < |y.q.items| && y.q.items[i].status == Running ensures i in y.hist.stuck || ClaimedBySome(y, i) {
      if s.Claim? && i in s.picked {
        assert i in y.claims[s.w];
      } else if i !in x.hist.stuck {
        var w :| 0 <= w < |x.claims| && i in x.claims[w];
        if !(s.Abandon? && w == s.w) { assert i in y.claims[w]; }
      }
    }
  }

  lemma ClaimKeeps(x: World, s: Step)
    requires Inv(x) && Enabled(x, s) && s.Claim?
    ensures JobsOk(Apply(x, s))
  {
    var y := Apply(x, s);
    forall job | job in y.q.jobs ensures JobOk(y, job) {
      assert JobOk(x, job);
      ClaimedCounts(x.q.items, s.picked, job);
    }
  }

  lemma HandsStay(x: World, y: World, w: nat, p: Phase, job: string)
    requires w < |x.phases| && !InHand(x.phases[w], job) && y.phases == x.phases[w := p]
    ensures (exists v | 0 <= v < |x.phases| :: InHand(x.phases[v], job)) ==> exists v | 0 <= v < |y.phases| :: InHand(y.phases[v], job)
  {
    if exists v | 0 <= v < |x.phases| :: InHand(x.phases[v], job) {
      var v :| 0 <= v < |x.phases| && InHand(x.phases[v], job);
      assert y.phases[v] == x.phases[v];
    }
  }

  /** One row and one worker's phase change: what the sums of a job make of it. */
  lemma RowAndPhase(x: World, y: World, i: nat, w: nat, job: string)
    requires i < |x.q.items| && i < |y.q.items| && w < |x.phases| && w < |y.phases|
    requires y.q.items == x.q.items[i := y.q.items[i]] && y.q.items[i].job == x.q.items[i].job
    requires y.phases == x.phases[w := y.phases[w]]
    ensures CountTerminal(y.q.items, job) + One(EndedFor(x.q.items[i], job)) == CountTerminal(x.q.items, job) + One(EndedFor(y.q.items[i], job))
    ensures Uncounted(y.phases, job) + One(Owes(x.phases[w], job)) == Uncounted(x.phases, job) + One(Owes(y.phases[w], job))
    ensures CountJob(y.q.items, job) == CountJob(x.q.items, job)
  {
    TerminalUpdate(x.q.items, i, y.q.items[i], job);
    UncountedUpdate(x.phases, w, y.phases[w], job);
  }

  /** A claimed row leaves the running state for good or goes back to pending. */
  lemma EndKeeps(x: World, s: Step)
    requires Inv(x) && Enabled(x, s) && (s.Finish? || s.Retry?)
    ensures JobsOk(Apply(x, s))
  {
    var y := Apply(x, s);
    assert AllRunning(x.q.items, x.claims[s.w]);
    forall job | job in y.q.jobs ensures JobOk(y, job) {
      assert JobOk(x, job);
      RowAndPhase(x, y, s.i, s.w, job);
      HandsStay(x, y, s.w, y.phases[s.w], job);
    }
  }

  /** A finished row is put back: its count, if it was made, will be made again. */
  lemma RecoverKeeps(x: World, s: Step)
    requires Inv(x) && Enabled(x, s) && s.Recover?
    ensures JobsOk(Apply(x, s))
  {
    var y, p := Apply(x, s), x.phases[s.w];
    assert HoldsDone(x.q.items, p);
    var i := p.row.value;
    forall job | job in y.q.jobs ensures JobOk(y, job) {
      assert JobOk(x, job);
      RowAndPhase(x, y, i, s.w, job);
      if InHand(p, job) { assert job in y.hist.missed; } else { HandsStay(x, y, s.w, y.phases[s.w], job); }
    }
  }

  lemma AbandonKeeps(x: World, s: Step)
    requires Inv(x) && Enabled(x, s) && s.Abandon?
    ensures JobsOk(Apply(x, s))
  {
    var y, p := Apply(x, s), x.phases[s.w];
    forall job | job in y.q.jobs ensures JobOk(y, job) {
      assert JobOk(x, job);
      UncountedUpdate(x.phases, s.w, Free, job);
      if InHand(p, job) { assert job in y.hist.missed; } else { HandsStay(x, y, s.w, Free, job); }
    }
  }

  lemma CountKeeps(x: World, s: Step)
    requires Inv(x) && Enabled(x, s) && s.Count?
    ensures JobsOk(Apply(x, s))
  {
    var y, p := Apply(x, s), x.phases[s.w];
    forall job | job in y.q.jobs ensures JobOk(y, job) {
      assert JobOk(x, job);
      UncountedUpdate(x.phases, s.w, Checking(p.job, p.row), job);
      if job == p.job { assert InHand(y.phases[s.w], job); }
      else { HandsStay(x, y, s.w, y.phases[s.w], job); }
    }
  }

  lemma CheckKeeps(x: World, s: Step)
    requires Inv(x) && Enabled(x, s) && s.Check?
    ensures JobsOk(Apply(x, s))
  {
    var y, p := Apply(x, s), x.phases[s.w];
    forall job | job in y.q.jobs ensures JobOk(y, job) {
      assert JobOk(x, job);
      UncountedUpdate(x.phases, s.w, y.phases[s.w], job);
      if job == p.job { if ReachesTotal(x.q, job) { assert InHand(y.phases[s.w], job); } }
      else { HandsStay(x, y, s.w, y.phases[s.w], job); }
    }
  }

  lemma CloseKeeps(x: World, s: Step)
    requires Inv(x) && Enabled(x, s) && s.Close?
    ensures JobsOk(Apply(x, s))
  {
    var y, p := Apply(x, s), x.phases[s.w];
    assert ReachesTotal(x.q, p.job);
    forall job | job in y.q.jobs ensures JobOk(y, job) {
      assert JobOk(x, job);
      UncountedUpdate(x.phases, s.w, Free, job);
      if job != p.job { HandsStay(x, y, s.w, y.phases[s.w], job); }
    }
  }

  /** No step lowers `processed`, and a row's attempts say what it may be. */
  lemma ClosingKept(x: World, s: Step)
    requires Inv(x) && Enabled(x, s)
    ensures ClosingOk(Apply(x, s)) && forall i | 0 <= i < |Apply(x, s).q.items| :: ItemOk(Apply(x, s).q.items[i])
  {
    if s.Finish? || s.Retry? { assert AllRunning(x.q.items, x.claims[s.w]); }
    if s.Recover? { assert HoldsDone(x.q.items, x.phases[s.w]); }
  }

  lemma StepKeeps(x: World, s: Step)
    requires Inv(x) && Enabled(x, s)
    ensures Inv(Apply(x, s))
  {
    ClaimsKept(x, s);
    RowsKept(x, s);
    RunningKept(x, s);
    ClosingKept(x, s);
    match s
    case Claim(_, _, _) => ClaimKeeps(x, s);
    case Finish(_, _, _) => EndKeeps(x, s);
    case Retry(_, _, _) => EndKeeps(x, s);
    case Count(_) => CountKeeps(x, s);
    case Check(_) => CheckKeeps(x, s);
    case Close(_) => CloseKeeps(x, s);
    case Recover(_, _) => RecoverKeeps(x, s);
    case Abandon(_) => AbandonKeeps(x, s);
  }

  ghost predicate IsRun(x: World, ss: seq<Step>)
    decreases |ss|
  { ss == [] || (Enabled(x, ss[0]) && IsRun(Apply(x, ss[0]), ss[1..])) }

  ghost function After(x: World, ss: seq<Step>): World
    requires IsRun(x, ss)
    decreases |ss|
  { if ss == [] then x else After(Apply(x, ss[0]), ss[1..]) }

  lemma {:induction false} RunKeeps(x: World, ss: seq<Step>)
    requires Inv(x) && IsRun(x, ss)
    ensures Inv(After(x, ss))
    decreases |ss|
  {
    if ss != [] {
      StepKeeps(x, ss[0]);
      RunKeeps(Apply(x, ss[0]), ss[1..]);
    }
  }

  /** Fresh jobs over fresh rows, workers idle. */
  ghost predicate Start(x: World) {
    && |x.claims| == |x.phases| && x.hist == CLEAN
    && (forall w | 0 <= w < |x.phases| :: x.phases[w] == Free && x.claims[w] == {})
    && (forall i | 0 <= i < |x.q.items| :: x.q.items[i].status == Pending && x.q.items[i].attempts == 0)
    && forall job | job in x.q.jobs ::
         var j := x.q.jobs[job];
         j.total == CountJob(x.q.items, job) && j.processed == j.matched == j.queued == 0 && !j.done
  }

  lemma {:induction false} NothingEnded(items: seq<Item>, phases: seq<Phase>, job: string)
    requires forall i | 0 <= i < |items| :: !Terminal(items[i].status)
    ensures CountTerminal(items, job) == 0
  { if items != [] { NothingEnded(items[..|items| - 1], phases, job); } }

  lemma {:induction false} NobodyOwes(phases: seq<Phase>, job: string)
    requires forall w | 0 <= w < |phases| :: phases[w] == Free
    ensures Uncounted(phases, job) == 0
  { if phases != [] { NobodyOwes(phases[..|phases| - 1], job); } }

  lemma StartInv(x: World)
    requires Start(x)
    ensures Inv(x)
  {
    forall job | job in x.q.jobs ensures JobOk(x, job) {
      NothingEnded(x.q.items, x.phases, job);
      NobodyOwes(x.phases, job);
    }
  }

  /** A batch is at most ten rows, all pending and due, and claiming them changes nothing but their status. */
  lemma ClaimIs(x: World, w: nat, picked: set<nat>, now: nat)
    requires Enabled(x, Claim(w, picked, now))
    ensures |picked| <= 10
    ensures forall i | i in picked :: i < |x.q.items| && x.q.items[i].status == Pending && x.q.items[i].dueAt <= now
    ensures var y := Apply(x, Claim(w, picked, now));
            && y.q.jobs == x.q.jobs && |y.q.items| == |x.q.items| && y.hist == x.hist && y.claims == x.claims[w := picked]
            && forall i | 0 <= i < |x.q.items| ::
                 y.q.items[i] == if i in picked then x.q.items[i].(status := Running) else x.q.items[i]
  {}

  predicate AtRest(x: World) { |x.claims| == |x.phases| && forall w | 0 <= w < |x.phases| :: x.phases[w] == Free && x.claims[w] == {} }

  predicate AllEnded(q: Queue, job: string) { forall i | 0 <= i < |q.items| && q.items[i].job == job :: Terminal(q.items[i].status) }

  /**
   * Any number of workers, any interleaving, any failing statements: at rest processed is the number
   * of done and failed rows, plus the counts made again, minus the counts lost. The two agree exactly
   * when these cancel, and then a job whose completion was always looked at is done exactly when it
   * has rows and all have ended. Rows left running are those of abandoned batches.
   */
  lemma CountersAtRest(x: World, ss: seq<Step>, job: string)
    requires Start(x) && IsRun(x, ss) && AtRest(After(x, ss))
    ensures var y := After(x, ss);
            (forall i | 0 <= i < |y.q.items| && y.q.items[i].status == Pending :: y.q.items[i].attempts <= 4)
            && (forall i | 0 <= i < |y.q.items| && y.q.items[i].status == Failed :: y.q.items[i].attempts == 5)
            && forall i | 0 <= i < |y.q.items| && y.q.items[i].status == Running :: i in y.hist.stuck
    ensures job in After(x, ss).q.jobs ==>
              var q, h := After(x, ss).q, After(x, ss).hist;
              var j := q.jobs[job];
              && j.processed == CountTerminal(q.items, job) + h.again[job] - h.lost[job]
              && j.matched <= j.processed && j.total == CountJob(q.items, job)
              && (j.done ==> j.total > 0 && j.processed >= j.total)
              && (h.again[job] == h.lost[job] ==> j.processed <= j.total)
              && (h.again[job] == h.lost[job] && job !in h.missed ==> (j.done <==> j.total > 0 && AllEnded(q, job)))
  {
    StartInv(x);
    RunKeeps(x, ss);
    var y := After(x, ss);
    forall i | 0 <= i < |y.q.items| && y.q.items[i].status == Running ensures i in y.hist.stuck {
      assert !ClaimedBySome(y, i);
    }
    if job in y.q.jobs {
      assert JobOk(y, job);
      NobodyOwes(y.phases, job);
      TerminalAtMost(y.q.items, job);
    }
  }

  /** Without failing statements after a finish there is nothing to cancel. */
  lemma {:induction false} QuietRunIsClean(x: World, ss: seq<Step>)
    requires IsRun(x, ss) && x.hist == CLEAN && forall s | s in ss :: !s.Recover? && !s.Abandon?
    ensures After(x, ss).hist == CLEAN
    decreases |ss|
  {
    if ss != [] {
      assert ss[0] in ss && forall s | s in ss[1..] :: s in ss;
      QuietRunIsClean(Apply(x, ss[0]), ss[1..]);
    }
  }

  // ----- A completion check that fails -----

  const ONE_JOB := map["j" := Job(1, 0, 0, 0, false, false)]
  const ONE_ROW := World(Queue([Item("j", "m", Pending, 0, 0)], ONE_JOB), [{}], [Free], CLEAN)

  const COUNTED := map["j" := Job(1, 1, 1, 1, false, false)]
  const TAKEN := World(Queue([Item("j", "m", Running, 0, 0)], ONE_JOB), [{0}], [Free], CLEAN)
  const ENDED := World(Queue([Item("j", "m", Done, 0, 0)], ONE_JOB), [{}], [Counting("j", true, Some(0))], CLEAN)
  const LOOKING := World(Queue([Item("j", "m", Done, 0, 0)], COUNTED), [{}], [Checking("j", Some(0))], CLEAN)
  const RECOVERED := World(Queue([Item("j", "m", Pending, 1, 30)], COUNTED), [{}], [Free],
                           CLEAN.(again := multiset{"j"}, missed := {"j"}))

  lemma FourSteps(x: World, a: Step, b: Step, c: Step, d: Step)
    requires Enabled(x, a) && Enabled(Apply(x, a), b) && Enabled(Apply(Apply(x, a), b), c)
    requires Enabled(Apply(Apply(Apply(x, a), b), c), d)
    ensures IsRun(x, [a, b, c, d]) && After(x, [a, b, c, d]) == Apply(Apply(Apply(Apply(x, a), b), c), d)
  {
    var x1, x2, x3 := Apply(x, a), Apply(Apply(x, a), b), Apply(Apply(Apply(x, a), b), c);
    var x4 := Apply(x3, d);
    assert [a, b, c, d][1..] == [b, c, d] && [b, c, d][1..] == [c, d] && [c, d][1..] == [d] && [d][1..] == [];
    assert IsRun(x4, []) && After(x4, []) == x4;
    assert IsRun(x3, [d]) && After(x3, [d]) == x4;
    assert IsRun(x2, [c, d]) && After(x2, [c, d]) == x4;
    assert IsRun(x1, [b, c, d]) && After(x1, [b, c, d]) == x4;
  }

  lemma FirstHalf()
    ensures Start(ONE_ROW) && Enabled(ONE_ROW, Claim(0, {0}, 0)) && Apply(ONE_ROW, Claim(0, {0}, 0)) == TAKEN
    ensures Enabled(TAKEN, Finish(0, 0, true)) && Apply(TAKEN, Finish(0, 0, true)) == ENDED
  {
    assert ONE_ROW.q.items[..0] == [] && CountJob(ONE_ROW.q.items, "j") == 1;
    assert TAKEN.claims[0] - {0} == {};
    assert Apply(TAKEN, Finish(0, 0, true)).claims == ENDED.claims;
    assert Apply(TAKEN, Finish(0, 0, true)).phases == ENDED.phases;
    assert Apply(TAKEN, Finish(0, 0, true)).q.items == ENDED.q.items;
  }

  lemma SecondHalf()
    ensures Enabled(ENDED, Count(0)) && Apply(ENDED, Count(0)) == LOOKING
    ensures Enabled(LOOKING, Recover(0, 30)) && Apply(LOOKING, Recover(0, 30)) == RECOVERED
  {}

  /** The only row of a job is counted, the look at the job fails, and the row is pending again: one processed, none ended. */
  lemma CountedButPending()
    ensures var ss := [Claim(0, {0}, 0), Finish(0, 0, true), Count(0), Recover(0, 30)];
            && Start(ONE_ROW) && IsRun(ONE_ROW, ss) && AtRest(After(ONE_ROW, ss))
            && After(ONE_ROW, ss).q.items[0].status == Pending
            && After(ONE_ROW, ss).q.jobs["j"].processed == 1 && CountTerminal(After(ONE_ROW, ss).q.items, "j") == 0
  {
    FirstHalf();
    SecondHalf();
    FourSteps(ONE_ROW, Claim(0, {0}, 0), Finish(0, 0, true), Count(0), Recover(0, 30));
    assert RECOVERED.q.items[..0] == [];
  }
}
