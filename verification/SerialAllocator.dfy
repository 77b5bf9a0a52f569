/**
 * Concurrent allocators of one gl_journal_seq key, statement by statement
 * (lib/glPosting.js:308-337, 354-383). A transaction sees the snapshot of its first read; INSERT
 * and UPDATE wait for the row lock and read the newest committed row. An INSERT IGNORE that meets
 * the row leaves a shared lock on it, which the UPDATE of another thread waits for. One that waits for
 * the row's owner gets that shared lock when the owner ends; if the row goes with the owner, it gets a
 * shared lock on the gap, which the insert of another thread waits for. A rollback may strike any
 * time. Journals of the key may appear at any moment, from allocators and other writers.
 */
module SerialAllocator {
  import opened Text

  type Thread = nat

  datatype Pc =
    | Idle
    | Began(seen: bool, snapshot: set<nat>)  // SELECT 1 ... and SELECT MAX(...) of one snapshot
    | Waiting(snapshot: set<nat>)            // INSERT IGNORE behind another thread's row, or in the gap it left
    | Ready                                  // past INSERT IGNORE
    | Bumped(value: nat)                     // past UPDATE ... LAST_INSERT_ID(last_serial + 1)

  /**
   * `row` is last_serial as its exclusive lock holder sees it, `undo` what it was before the holder
   * touched it; `sharers` hold shared locks on the row and `gap` on the gap where it would be; `seed` are
   * the serials in the snapshot the row was seeded from; `returned` lists what the callers got, in
   * commit order.
   */
  datatype State = State(row: Option<nat>, undo: Option<nat>, owner: Option<Thread>, sharers: set<Thread>, gap: set<Thread>,
                         seed: set<nat>, pcs: seq<Pc>, journals: set<nat>, returned: seq<nat>)

  datatype Action =
    | Begin(t: Thread)
    | InsertIgnore(t: Thread)
    | Wait(t: Thread)
    | Update(t: Thread)
    | Commit(t: Thread)
    | Rollback(t: Thread)
    | JournalAppears(n: nat)

  function CommittedRow(s: State): Option<nat> { if s.owner.None? then s.row else s.undo }

  /** Nobody else holds the row exclusively. */
  predicate MayShare(s: State, t: Thread) { s.owner.None? || s.owner.value == t }

  /** Nobody else holds the row at all. */
  predicate MayLock(s: State, t: Thread) { MayShare(s, t) && s.sharers <= {t} }

  predicate Enabled(s: State, a: Action) {
    match a
    case Begin(t) => t < |s.pcs| && s.pcs[t].Idle?
    case InsertIgnore(t) =>
      && t < |s.pcs|
      && (match s.pcs[t]
          case Began(seen, _) => seen || (MayShare(s, t) && (s.row.Some? || s.gap <= {t}))
          case Waiting(_) => s.owner.None? && s.gap <= {t}
          case _ => false)
    case Wait(t) => t < |s.pcs| && s.pcs[t].Began? && !s.pcs[t].seen && !MayShare(s, t)
    case Update(t) => t < |s.pcs| && s.pcs[t].Ready? && MayLock(s, t) && s.row.Some?
    case Commit(t) => t < |s.pcs| && s.pcs[t].Bumped?
    case Rollback(t) => t < |s.pcs| && !s.pcs[t].Idle?
    case JournalAppears(_) => true
  }

  function MaxOf(s: set<nat>): (m: nat)
    ensures forall x | x in s :: x <= m
  {
    if s == {} then 0
    else
      MaxExists(s);
      var x :| x in s && forall y | y in s :: y <= x;
      x
  }

  lemma {:induction false} MaxExists(s: set<nat>)
    requires s != {}
    ensures exists x :: x in s && forall y | y in s :: y <= x
  {
    var z :| z in s;
    var rest := s - {z};
    if rest == {} {
      assert s == {z};
    } else {
      MaxExists(rest);
      var x :| x in rest && forall y | y in rest :: y <= x;
      var m := if z > x then z else x;
      assert m in s && forall y | y in s :: y <= m by {
        forall y | y in s ensures y <= m { if y != z { assert y in rest; } }
      }
    }
  }

  function Waiters(pcs: seq<Pc>): set<Thread> { set t: nat | t < |pcs| && pcs[t].Waiting? }

  /** The owner is gone: waiting inserts share the row and are refused, or share the gap where it was. */
  function Granted(s: State): State {
    if s.row.Some?
    then s.(sharers := s.sharers + Waiters(s.pcs),
            pcs := seq(|s.pcs|, t requires 0 <= t < |s.pcs| => if s.pcs[t].Waiting? then Ready else s.pcs[t]))
    else s.(gap := s.gap + Waiters(s.pcs))
  }

  function Apply(s: State, a: Action): State
    requires Enabled(s, a)
  {
    match a
    case Begin(t) => s.(pcs := s.pcs[t := Began(CommittedRow(s).Some?, s.journals)])
    case InsertIgnore(t) =>
      var next := s.(pcs := s.pcs[t := Ready]);
      if s.pcs[t].Began? && s.pcs[t].seen then next
      else if s.row.Some? then next.(sharers := s.sharers + {t})
      else next.(row := Some(MaxOf(s.pcs[t].snapshot)), undo := None, owner := Some(t), seed := s.pcs[t].snapshot)
    case Update(t) =>
      var v := s.row.value + 1;
      s.(row := Some(v), undo := CommittedRow(s), owner := Some(t), pcs := s.pcs[t := Bumped(v)])
    case Wait(t) => s.(pcs := s.pcs[t := Waiting(s.pcs[t].snapshot)])
    case Commit(t) =>
      Granted(s.(owner := None, undo := None, sharers := s.sharers - {t}, gap := s.gap - {t},
                 returned := s.returned + [s.pcs[t].value], pcs := s.pcs[t := Idle]))
    case Rollback(t) =>
      var next := s.(pcs := s.pcs[t := Idle], sharers := s.sharers - {t}, gap := s.gap - {t});
      if s.owner == Some(t) then Granted(next.(row := s.undo, undo := None, owner := None)) else next
    case JournalAppears(n) => s.(journals := s.journals + {n})
  }

  predicate Initial(s: State) {
    s.row == None && s.owner == None && s.undo == None && s.returned == [] && s.sharers == {} && s.gap == {}
    && forall t | 0 <= t < |s.pcs| :: s.pcs[t].Idle?
  }

  predicate Increasing(r: seq<nat>) { forall i, j | 0 <= i < j < |r| :: r[i] < r[j] }

  /** What a thread's position says about the row. */
  predicate ThreadOk(s: State, t: Thread)
    requires t < |s.pcs|
  {
    match s.pcs[t]
    case Idle => s.owner != Some(t)
    case Began(seen, _) => s.owner != Some(t) && (seen ==> CommittedRow(s).Some?)
    case Waiting(_) => s.owner != Some(t) && (s.owner.None? ==> s.row.None? && t in s.gap)
    case Ready => if s.owner == Some(t) then s.undo.None? else CommittedRow(s).Some?
    case Bumped(v) => s.owner == Some(t) && s.row == Some(v) && (s.undo.Some? ==> v > s.undo.value)
  }

  predicate Safe(s: State) {
    && Increasing(s.returned)
    && (forall t | 0 <= t < |s.pcs| :: ThreadOk(s, t))
    && (s.owner.Some? ==> s.owner.value < |s.pcs| && s.row.Some?)
    && (forall t | t in s.sharers :: t < |s.pcs| && (s.pcs[t].Ready? || s.pcs[t].Bumped?))
    && (s.owner.Some? ==> s.sharers <= {s.owner.value})
    && (s.sharers != {} ==> s.row.Some?)
    && (forall t | t in s.gap :: t < |s.pcs| && (s.pcs[t].Waiting? || s.owner == Some(t)))
    && (s.gap != {} ==> if s.owner.Some? then s.gap <= {s.owner.value} else s.row.None?)
    && (CommittedRow(s).None? ==> s.returned == [])
    && (CommittedRow(s).Some? ==> forall v | v in s.returned :: v <= CommittedRow(s).value)
    && (s.row.Some? ==> forall b | b in s.seed :: b <= s.row.value)
    && (s.undo.Some? ==> forall b | b in s.seed :: b <= s.undo.value)
    && (forall v, b | v in s.returned && b in s.seed :: b < v)
    && (s.owner.Some? && s.pcs[s.owner.value].Bumped? ==> forall b | b in s.seed :: b < s.row.value)
  }

  /** The end of a transaction keeps all this: whoever waited for it shares the row or the gap. */
  lemma EndSafe(s: State, a: Action)
    requires Safe(s) && Enabled(s, a) && (a.Commit? || a.Rollback?)
    ensures Safe(Apply(s, a))
  {
    var s' := Apply(s, a);
    assert ThreadOk(s, a.t);
    if a.Commit? {
      forall i | 0 <= i < |s.returned| ensures s.returned[i] < s.pcs[a.t].value { assert s.returned[i] in s.returned; }
    }
    forall u | 0 <= u < |s'.pcs| ensures ThreadOk(s', u) { assert ThreadOk(s, u); }
  }

  lemma StepSafe(s: State, a: Action)
    requires Safe(s) && Enabled(s, a)
    ensures Safe(Apply(s, a))
  {
    if a.Commit? || a.Rollback? {
      EndSafe(s, a);
    } else {
      var s' := Apply(s, a);
      if !a.JournalAppears? { assert ThreadOk(s, a.t); }
      forall u | 0 <= u < |s'.pcs| ensures ThreadOk(s', u) { assert ThreadOk(s, u); }
    }
  }

  ghost predicate IsRun(s: State, acts: seq<Action>)
    decreases |acts|
  { acts == [] || (Enabled(s, acts[0]) && IsRun(Apply(s, acts[0]), acts[1..])) }

  ghost function After(s: State, acts: seq<Action>): State
    requires IsRun(s, acts)
    decreases |acts|
  { if acts == [] then s else After(Apply(s, acts[0]), acts[1..]) }

  lemma {:induction false} RunSafe(s: State, acts: seq<Action>)
    requires Safe(s) && IsRun(s, acts)
    ensures Safe(After(s, acts))
    decreases |acts|
  {
    if acts != [] {
      StepSafe(s, acts[0]);
      RunSafe(Apply(s, acts[0]), acts[1..]);
    }
  }

  /**
   * For any interleaving, with rollbacks and racing first seeds: no serial is handed out twice, and
   * every one exceeds all serials present when the counter row was seeded.
   */
  lemma SerialsDistinct(s: State, acts: seq<Action>)
    requires Initial(s) && IsRun(s, acts)
    ensures var r := After(s, acts).returned;
            && (forall i, j | 0 <= i < |r| && 0 <= j < |r| && i != j :: r[i] != r[j])
            && (forall i, b | 0 <= i < |r| && b in After(s, acts).seed :: b < r[i])
  {
    assert Safe(s);
    RunSafe(s, acts);
    var r := After(s, acts).returned;
    forall i, b | 0 <= i < |r| && b in After(s, acts).seed ensures b < r[i] { assert r[i] in r; }
  }

  /** The seed snapshot of a committed row was read after the run began: it holds every earlier journal. */
  predicate SeedCovers(s: State, base: set<nat>) {
    && base <= s.journals
    && (s.row.Some? ==> base <= s.seed)
    && (forall t | 0 <= t < |s.pcs| && (s.pcs[t].Began? || s.pcs[t].Waiting?) :: base <= s.pcs[t].snapshot)
  }

  lemma StepCovers(s: State, a: Action, base: set<nat>)
    requires Safe(s) && SeedCovers(s, base) && Enabled(s, a)
    ensures SeedCovers(Apply(s, a), base)
  {
    var s' := Apply(s, a);
    forall t | 0 <= t < |s'.pcs| && (s'.pcs[t].Began? || s'.pcs[t].Waiting?) ensures base <= s'.pcs[t].snapshot {}
  }

  lemma {:induction false} RunCovers(s: State, acts: seq<Action>, base: set<nat>)
    requires Safe(s) && SeedCovers(s, base) && IsRun(s, acts)
    ensures SeedCovers(After(s, acts), base)
    decreases |acts|
  {
    if acts != [] {
      StepCovers(s, acts[0], base);
      StepSafe(s, acts[0]);
      RunCovers(Apply(s, acts[0]), acts[1..], base);
    }
  }

  /** Hence every returned serial exceeds every serial present at the start. */
  lemma SerialsAboveStart(s: State, acts: seq<Action>)
    requires Initial(s) && IsRun(s, acts)
    ensures forall v, b | v in After(s, acts).returned && b in s.journals :: b < v
  {
    assert Safe(s) && SeedCovers(s, s.journals);
    RunSafe(s, acts);
    RunCovers(s, acts, s.journals);
  }

  /** The counter stands at the seed plus what was returned; whoever has bumped it holds the next serial. */
  predicate Counts(s: State) {
    && (CommittedRow(s).Some? ==> CommittedRow(s).value == MaxOf(s.seed) + |s.returned|)
    && (s.owner.Some? && s.undo.None? && s.owner.value < |s.pcs| && s.pcs[s.owner.value].Ready? ==> s.row == Some(MaxOf(s.seed)))
    && (forall t | 0 <= t < |s.pcs| && s.pcs[t].Bumped? :: s.pcs[t].value == MaxOf(s.seed) + |s.returned| + 1)
    && (forall i | 0 <= i < |s.returned| :: s.returned[i] == MaxOf(s.seed) + 1 + i)
  }

  lemma StepCounts(s: State, a: Action)
    requires Safe(s) && Counts(s) && Enabled(s, a)
    ensures Counts(Apply(s, a))
  {
    var s' := Apply(s, a);
    if !a.JournalAppears? { assert ThreadOk(s, a.t); }
    if s.owner.Some? { assert ThreadOk(s, s.owner.value); }
    forall t | 0 <= t < |s'.pcs| && s'.pcs[t].Bumped? ensures s'.pcs[t].value == MaxOf(s'.seed) + |s'.returned| + 1 {
      assert ThreadOk(s, t);
    }
  }

  lemma {:induction false} RunCounts(s: State, acts: seq<Action>)
    requires Safe(s) && Counts(s) && IsRun(s, acts)
    ensures Counts(After(s, acts))
    decreases |acts|
  {
    if acts != [] {
      StepCounts(s, acts[0]);
      StepSafe(s, acts[0]);
      RunCounts(Apply(s, acts[0]), acts[1..]);
    }
  }

  /** m is the greatest of the seed, 0 when that is empty, and the serials go on from it one by one. */
  predicate GoesOnFrom(m: nat, seed: set<nat>, r: seq<nat>) {
    && (if seed == {} then m == 0 else m in seed) && (forall b | b in seed :: b <= m)
    && forall i | 0 <= i < |r| :: r[i] == m + 1 + i
  }

  /** Serials follow each other without a gap from one above the greatest of the seed, 0 when there is none. */
  lemma SerialsConsecutive(s: State, acts: seq<Action>)
    requires Initial(s) && IsRun(s, acts)
    ensures exists m: nat :: GoesOnFrom(m, After(s, acts).seed, After(s, acts).returned)
  {
    assert Safe(s) && Counts(s);
    RunCounts(s, acts);
    var v := After(s, acts);
    if v.seed != {} { MaxExists(v.seed); }
    assert GoesOnFrom(MaxOf(v.seed), v.seed, v.returned);
  }

  // ----- The seed deadlock -----

  predicate IsProgress(a: Action) { a.InsertIgnore? || a.Update? || a.Commit? }

  /**
   * Two threads or more share the row after refused inserts, and each waits to update it; or two or more
   * share the gap a rolled-back row left, and each waits to insert.
   */
  predicate Deadlocked(s: State) {
    && s.owner.None?
    && if s.row.Some? then |s.sharers| >= 2 && forall t | 0 <= t < |s.pcs| && !s.pcs[t].Idle? :: s.pcs[t].Ready?
       else |s.gap| >= 2
  }

  predicate SomebodyActive(s: State) { exists t | 0 <= t < |s.pcs| :: !s.pcs[t].Idle? }

  /** Allocation cannot go on exactly when the active threads are in the seed deadlock. */
  lemma StuckIffDeadlocked(s: State)
    requires Safe(s) && SomebodyActive(s)
    ensures (forall a :: Enabled(s, a) ==> !IsProgress(a)) <==> Deadlocked(s)
  {
    if Deadlocked(s) {
      forall a | Enabled(s, a) ensures !IsProgress(a) {
        if IsProgress(a) { assert ThreadOk(s, a.t); }
        if a.Update? && s.sharers <= {a.t} { AtMostOne(s.sharers, a.t); }
        if a.InsertIgnore? && s.gap <= {a.t} { AtMostOne(s.gap, a.t); }
      }
    } else {
      var a := ProgressOf(s);
      assert Enabled(s, a) && IsProgress(a);
    }
  }

  lemma AtMostOne(sharers: set<Thread>, t: Thread)
    requires sharers <= {t}
    ensures |sharers| <= 1
  { if sharers != {} { assert sharers == {t}; } }

  /** Outside the deadlock some statement or commit goes through. */
  lemma ProgressOf(s: State) returns (a: Action)
    requires Safe(s) && SomebodyActive(s) && !Deadlocked(s)
    ensures Enabled(s, a) && IsProgress(a)
  {
    if s.owner.Some? {
      var u := s.owner.value;
      assert ThreadOk(s, u);
      a := if s.pcs[u].Ready? then Update(u) else Commit(u);
    } else if s.row.None? {
      a := InsertInGap(s);
    } else if exists t | 0 <= t < |s.pcs| :: !s.pcs[t].Idle? && !s.pcs[t].Ready? {
      var t :| 0 <= t < |s.pcs| && !s.pcs[t].Idle? && !s.pcs[t].Ready?;
      assert ThreadOk(s, t);
      a := InsertIgnore(t);
    } else {
      var t :| 0 <= t < |s.pcs| && !s.pcs[t].Idle?;
      var u := t;
      if s.sharers != {} { u :| u in s.sharers; }
      assert s.sharers <= {u} by { OneSharer(s.sharers, u); }
      assert ThreadOk(s, u);
      a := Update(u);
    }
  }

  /** Without a row and an owner every active thread is about to insert, and the one in the gap, if any, may. */
  lemma InsertInGap(s: State) returns (a: Action)
    requires Safe(s) && SomebodyActive(s) && s.owner.None? && s.row.None? && |s.gap| <= 1
    ensures Enabled(s, a) && a.InsertIgnore?
  {
    var u :| 0 <= u < |s.pcs| && !s.pcs[u].Idle?;
    if s.gap != {} { u :| u in s.gap; }
    OneSharer(s.gap, u);
    assert ThreadOk(s, u);
    a := InsertIgnore(u);
  }

  lemma OneSharer(sharers: set<Thread>, u: Thread)
    requires |sharers| <= 1 && (sharers != {} ==> u in sharers)
    ensures sharers <= {u}
  {
    if sharers != {} {
      assert |sharers - {u}| == |sharers| - 1;
      assert sharers - {u} == {};
    }
  }

  /** Rolling back all sharers but one lets that one update: the database ends the deadlock with its victims. */
  lemma {:induction false} VictimsUnblock(s: State, t: Thread) returns (acts: seq<Action>)
    requires Safe(s) && s.owner.None? && t in s.sharers && s.pcs[t].Ready?
    ensures |acts| == |s.sharers| - 1 && (forall a | a in acts :: a.Rollback? && a.t != t)
    ensures IsRun(s, acts) && Enabled(After(s, acts), Update(t))
    decreases |s.sharers|
  {
    assert ThreadOk(s, t);
    if s.sharers == {t} {
      acts := [];
    } else {
      var u :| u in s.sharers && u != t;
      assert ThreadOk(s, u);
      StepSafe(s, Rollback(u));
      var s1 := Apply(s, Rollback(u));
      assert |s1.sharers| == |s.sharers| - 1;
      var more := VictimsUnblock(s1, t);
      acts := [Rollback(u)] + more;
      assert acts[1..] == more;
    }
  }

  /** The same in the gap: that one inserts. */
  lemma {:induction false} GapVictimsUnblock(s: State, t: Thread) returns (acts: seq<Action>)
    requires Safe(s) && s.owner.None? && s.row.None? && t in s.gap
    ensures |acts| == |s.gap| - 1 && (forall a | a in acts :: a.Rollback? && a.t != t)
    ensures IsRun(s, acts) && Enabled(After(s, acts), InsertIgnore(t))
    decreases |s.gap|
  {
    assert ThreadOk(s, t);
    if s.gap == {t} {
      acts := [];
    } else {
      var u :| u in s.gap && u != t;
      assert ThreadOk(s, u);
      StepSafe(s, Rollback(u));
      var s1 := Apply(s, Rollback(u));
      assert |s1.gap| == |s.gap| - 1;
      var more := GapVictimsUnblock(s1, t);
      acts := [Rollback(u)] + more;
      assert acts[1..] == more;
    }
  }

  const THREE_ALLOCATORS := State(None, None, None, {}, {}, {}, [Idle, Idle, Idle], {}, [])
  const UNSEEN := Began(false, {})
  const ALL_BEGAN := THREE_ALLOCATORS.(pcs := [UNSEEN, UNSEEN, UNSEEN])
  const FIRST_SEEDED := State(Some(1), None, None, {}, {}, {}, [Idle, UNSEEN, UNSEEN], {}, [1])

  lemma ThreeSteps(s: State, a: Action, b: Action, c: Action)
    requires Enabled(s, a) && Enabled(Apply(s, a), b) && Enabled(Apply(Apply(s, a), b), c)
    ensures IsRun(s, [a, b, c]) && After(s, [a, b, c]) == Apply(Apply(Apply(s, a), b), c)
  {
    var s1, s2, s3 := Apply(s, a), Apply(Apply(s, a), b), Apply(Apply(Apply(s, a), b), c);
    assert [a, b, c][1..] == [b, c] && [b, c][1..] == [c] && [c][1..] == [];
    assert IsRun(s3, []) && After(s3, []) == s3;
    assert IsRun(s2, [c]) && After(s2, [c]) == s3;
    assert IsRun(s1, [b, c]) && After(s1, [b, c]) == s3;
  }

  lemma {:induction false} RunJoin(s: State, x: seq<Action>, y: seq<Action>)
    requires IsRun(s, x) && IsRun(After(s, x), y)
    ensures IsRun(s, x + y) && After(s, x + y) == After(After(s, x), y)
    decreases |x|
  {
    if x == [] {
      assert x + y == y;
    } else {
      assert (x + y)[0] == x[0] && (x + y)[1..] == x[1..] + y;
      RunJoin(Apply(s, x[0]), x[1..], y);
    }
  }

  lemma AllBegin()
    ensures IsRun(THREE_ALLOCATORS, [Begin(0), Begin(1), Begin(2)])
    ensures After(THREE_ALLOCATORS, [Begin(0), Begin(1), Begin(2)]) == ALL_BEGAN
  {
    var s := THREE_ALLOCATORS;
    assert Apply(s, Begin(0)) == s.(pcs := [UNSEEN, Idle, Idle]);
    assert Apply(Apply(s, Begin(0)), Begin(1)) == s.(pcs := [UNSEEN, UNSEEN, Idle]);
    ThreeSteps(s, Begin(0), Begin(1), Begin(2));
  }

  lemma FirstSeeds()
    ensures IsRun(ALL_BEGAN, [InsertIgnore(0), Update(0), Commit(0)])
    ensures After(ALL_BEGAN, [InsertIgnore(0), Update(0), Commit(0)]) == FIRST_SEEDED
  {
    var s := ALL_BEGAN;
    assert Apply(s, InsertIgnore(0)) == State(Some(0), None, Some(0), {}, {}, {}, [Ready, UNSEEN, UNSEEN], {}, []);
    assert Apply(Apply(s, InsertIgnore(0)), Update(0)) == State(Some(1), None, Some(0), {}, {}, {}, [Bumped(1), UNSEEN, UNSEEN], {}, []);
    ThreeSteps(s, InsertIgnore(0), Update(0), Commit(0));
  }

  lemma OthersCollide()
    ensures IsRun(FIRST_SEEDED, [InsertIgnore(1), InsertIgnore(2)])
    ensures Deadlocked(After(FIRST_SEEDED, [InsertIgnore(1), InsertIgnore(2)]))
  {
    var s := FIRST_SEEDED;
    var s1, s2 := s.(pcs := [Idle, Ready, UNSEEN], sharers := {1}), s.(pcs := [Idle, Ready, Ready], sharers := {1, 2});
    assert Apply(s, InsertIgnore(1)) == s1 && Apply(s1, InsertIgnore(2)) == s2;
    assert [InsertIgnore(1), InsertIgnore(2)][1..] == [InsertIgnore(2)] && [InsertIgnore(2)][1..] == [];
    assert IsRun(s2, []) && After(s2, []) == s2;
    assert IsRun(s1, [InsertIgnore(2)]) && After(s1, [InsertIgnore(2)]) == s2;
  }

  /** Three threads find no counter row; the first seeds it, the other two deadlock over its update. */
  lemma SeedDeadlockHappens()
    ensures Initial(THREE_ALLOCATORS)
    ensures var acts := [Begin(0), Begin(1), Begin(2)] + [InsertIgnore(0), Update(0), Commit(0)] + [InsertIgnore(1), InsertIgnore(2)];
            IsRun(THREE_ALLOCATORS, acts) && Deadlocked(After(THREE_ALLOCATORS, acts))
  {
    AllBegin();
    FirstSeeds();
    OthersCollide();
    var x, y := [Begin(0), Begin(1), Begin(2)], [InsertIgnore(0), Update(0), Commit(0)];
    RunJoin(THREE_ALLOCATORS, x, y);
    RunJoin(THREE_ALLOCATORS, x + y, [InsertIgnore(1), InsertIgnore(2)]);
  }

  /** The first seeder inserts, the other two wait behind it; it rolls back, and they deadlock over the gap. */
  lemma GapDeadlockHappens()
    ensures var acts := [Begin(0), Begin(1), Begin(2)] + [InsertIgnore(0), Wait(1), Wait(2)] + [Rollback(0)];
            IsRun(THREE_ALLOCATORS, acts) && Deadlocked(After(THREE_ALLOCATORS, acts))
  {
    AllBegin();
    BothWait();
    SeederLeaves();
    var x, y := [Begin(0), Begin(1), Begin(2)], [InsertIgnore(0), Wait(1), Wait(2)];
    RunJoin(THREE_ALLOCATORS, x, y);
    RunJoin(THREE_ALLOCATORS, x + y, [Rollback(0)]);
  }

  const BOTH_WAIT := State(Some(0), None, Some(0), {}, {}, {}, [Ready, Waiting({}), Waiting({})], {}, [])

  lemma BothWait()
    ensures IsRun(ALL_BEGAN, [InsertIgnore(0), Wait(1), Wait(2)])
    ensures After(ALL_BEGAN, [InsertIgnore(0), Wait(1), Wait(2)]) == BOTH_WAIT
  {
    var s := ALL_BEGAN;
    assert Apply(s, InsertIgnore(0)) == BOTH_WAIT.(pcs := [Ready, UNSEEN, UNSEEN]);
    assert Apply(Apply(s, InsertIgnore(0)), Wait(1)) == BOTH_WAIT.(pcs := [Ready, Waiting({}), UNSEEN]);
    ThreeSteps(s, InsertIgnore(0), Wait(1), Wait(2));
  }

  lemma SeederLeaves()
    ensures IsRun(BOTH_WAIT, [Rollback(0)]) && Deadlocked(After(BOTH_WAIT, [Rollback(0)]))
  {
    var s1 := Apply(BOTH_WAIT, Rollback(0));
    assert s1.pcs == [Idle, Waiting({}), Waiting({})];
    assert Waiters(s1.pcs) == {1, 2};
    assert [Rollback(0)][1..] == [];
    assert IsRun(s1, []) && After(s1, []) == s1;
  }
}
