/**
 * Concurrent requests sharing reservation ids, one statement at a time: insert, lookup, then
 * complete or abort, with sweeps and failing statements in between (lib/idempotencyStore.js:50-88).
 */
module IdempotencyProtocol {
  import opened Text
  import opened StableJson
  import opened Idempotency

  datatype Outcome = Rejected | Replayed(code: int, body: Json) | Done(code: int, given: Option<Json>) | Failed

  datatype Phase = Waiting | LookingUp | Executing | Answered(out: Outcome)

  datatype Request = Request(id: string, hash: string, phase: Phase)

  /** An execution that ran to its end and stored its answer. */
  datatype Stored = Stored(id: string, hash: string, code: int, body: Option<Json>)

  datatype World = World(rows: map<string, Row>, reqs: seq<Request>, log: seq<Stored>)

  datatype Step =
    | Arrive(id: string, hash: string)
    | Insert(i: nat, now: nat)
    | Lookup(i: nat)
    | Complete(i: nat, code: int, body: Option<Json>)
    | CompleteLost(i: nat, code: int, body: Option<Json>)   // the update failed and the error was swallowed
    | Abort(i: nat)
    | AbortLost(i: nat)
    | Sweep(cutoff: nat)

  predicate Enabled(w: World, s: Step) {
    match s
    case Insert(i, _) => i < |w.reqs| && w.reqs[i].phase == Waiting
    case Lookup(i) => i < |w.reqs| && w.reqs[i].phase == LookingUp
    case Sweep(_) => true
    case Arrive(_, _) => true
    case _ => s.i < |w.reqs| && w.reqs[s.i].phase == Executing
  }

  function OutcomeOf(m: Mode): Phase {
    match m
    case Replay(code, body) => Answered(Replayed(code, body))
    case Conflict => Answered(Rejected)
    case _ => Executing
  }

  function LookedUp(rows: map<string, Row>, r: Request): Phase {
    if r.id in rows then OutcomeOf(Decide(rows[r.id], r.hash)) else Executing
  }

  function Moved(w: World, i: nat, p: Phase): World
    requires i < |w.reqs|
  { w.(reqs := w.reqs[i := w.reqs[i].(phase := p)]) }

  function Apply(w: World, s: Step): World
    requires Enabled(w, s)
  {
    match s
    case Arrive(id, hash) => w.(reqs := w.reqs + [Request(id, hash, Waiting)])
    case Insert(i, now) =>
      var r := w.reqs[i];
      if r.id in w.rows then Moved(w, i, LookingUp)
      else Moved(w, i, Executing).(rows := w.rows[r.id := Fresh(r.hash, now)])
    case Lookup(i) => Moved(w, i, LookedUp(w.rows, w.reqs[i]))
    case Complete(i, code, body) =>
      var r := w.reqs[i];
      Moved(w, i, Answered(Done(code, body))).(rows := Completed(w.rows, r.id, code, body),
                                               log := w.log + [Stored(r.id, r.hash, code, body)])
    case CompleteLost(i, code, body) => Moved(w, i, Answered(Done(code, body)))
    case Abort(i) => Moved(w, i, Answered(Failed)).(rows := Aborted(w.rows, w.reqs[i].id))
    case AbortLost(i) => Moved(w, i, Answered(Failed))
    case Sweep(cutoff) => w.(rows := AfterSweep(w.rows, cutoff))
  }

  /** A lookup after a refused insert finds no row: begin's `if (!row)` branch, which lets the request through without one. */
  predicate Missed(w: World, s: Step)
    requires Enabled(w, s)
  { s.Lookup? && w.reqs[s.i].id !in w.rows }

  /** No request stands between its refused insert and its lookup while this step deletes their row. */
  predicate Unsplit(w: World, s: Step)
    requires Enabled(w, s)
  {
    forall k | 0 <= k < |w.reqs| && w.reqs[k].phase == LookingUp && w.reqs[k].id in w.rows ::
      w.reqs[k].id in Apply(w, s).rows
  }

  ghost predicate IsRun(w: World, ss: seq<Step>)
    decreases |ss|
  { ss == [] || (Enabled(w, ss[0]) && IsRun(Apply(w, ss[0]), ss[1..])) }

  ghost predicate NoMiss(w: World, ss: seq<Step>)
    requires IsRun(w, ss)
    decreases |ss|
  { ss == [] || (!Missed(w, ss[0]) && NoMiss(Apply(w, ss[0]), ss[1..])) }

  ghost predicate UnsplitRun(w: World, ss: seq<Step>)
    requires IsRun(w, ss)
    decreases |ss|
  { ss == [] || (Unsplit(w, ss[0]) && UnsplitRun(Apply(w, ss[0]), ss[1..])) }

  ghost function After(w: World, ss: seq<Step>): World
    requires IsRun(w, ss)
    decreases |ss|
  { if ss == [] then w else After(Apply(w, ss[0]), ss[1..]) }

  // ----- The invariant -----

  /** The answer in a completed row is one that an execution under the same id and hash stored. */
  predicate RowOk(w: World, id: string)
    requires id in w.rows
  {
    w.rows[id].status.Some? ==>
      Stored(id, w.rows[id].hash, w.rows[id].status.value, w.rows[id].response) in w.log
  }

  /** A replayed answer is one an execution under the same id stored, for the same payload hash. */
  predicate ReplayOk(w: World, r: Request, code: int, body: Json) {
    exists c | c in w.log :: c.id == r.id && SameHash(c.hash, r.hash) && c.body == Some(body) && code == Shown(c.code)
  }

  predicate SameHash(a: string, b: string) { a == "" || b == "" || a == b }

  function Shown(code: int): int { if code == 0 then 200 else code }

  predicate RequestOk(w: World, r: Request) {
    match r.phase
    case Waiting => true
    case LookingUp => true
    case Executing => r.id in w.rows && w.rows[r.id].status.None? && w.rows[r.id].hash == r.hash
    case Answered(Replayed(code, body)) => ReplayOk(w, r, code, body)
    case Answered(_) => true
  }

  predicate RequestsOk(w: World) { forall k {:trigger w.reqs[k]} | 0 <= k < |w.reqs| :: RequestOk(w, w.reqs[k]) }

  predicate RowsOk(w: World) { forall id {:trigger RowOk(w, id)} | id in w.rows :: RowOk(w, id) }

  /** At most one request is executing under each id. */
  predicate Exclusive(w: World) {
    forall j, k | 0 <= j < k < |w.reqs| && w.reqs[j].phase == Executing && w.reqs[k].phase == Executing ::
      w.reqs[j].id != w.reqs[k].id
  }

  predicate Inv(w: World) { RequestsOk(w) && RowsOk(w) && Exclusive(w) }

  lemma DecidedOk(w: World, r: Request)
    requires r.id in w.rows && RowOk(w, r.id)
    ensures var p := LookedUp(w.rows, r);
            && p.Answered? && (p.out.Rejected? || p.out.Replayed?)
            && RequestOk(w, r.(phase := p))
  {
    var row := w.rows[r.id];
    if row.status.Some? && row.response.Some? && !Mismatch(row, r.hash) {
      var c := Stored(r.id, row.hash, row.status.value, row.response);
      assert c in w.log && c.id == r.id && SameHash(c.hash, r.hash);
    }
  }

  lemma StepRows(w: World, s: Step)
    requires Inv(w) && Enabled(w, s)
    ensures RowsOk(Apply(w, s))
  {
    var w' := Apply(w, s);
    forall id | id in w'.rows ensures RowOk(w', id) {
      if id in w.rows { assert RowOk(w, id); }
    }
  }

  lemma ReplayStays(w: World, w': World, r: Request, code: int, body: Json)
    requires ReplayOk(w, r, code, body) && w.log <= w'.log
    ensures ReplayOk(w', r, code, body)
  {
    var c :| c in w.log && c.id == r.id && SameHash(c.hash, r.hash) && c.body == Some(body) && code == Shown(c.code);
    var n :| 0 <= n < |w.log| && w.log[n] == c;
    assert w'.log[n] == c;
  }

  /** What a step can do to a request that it does not move. */
  lemma StandingRequest(w: World, s: Step, k: nat)
    requires Inv(w) && Enabled(w, s) && k < |w.reqs| && (s.Sweep? || s.Arrive? || s.i != k)
    ensures RequestOk(Apply(w, s), w.reqs[k])
  {
    var w', r := Apply(w, s), w.reqs[k];
    assert RequestOk(w, r);
    if r.phase.Answered? && r.phase.out.Replayed? { ReplayStays(w, w', r, r.phase.out.code, r.phase.out.body); }
    if !s.Sweep? && !s.Arrive? && r.phase == Executing && w.reqs[s.i].phase == Executing { assert r.id != w.reqs[s.i].id; }
  }

  lemma MovedRequest(w: World, s: Step)
    requires Inv(w) && Enabled(w, s) && !s.Sweep? && !s.Arrive? && !Missed(w, s)
    ensures RequestOk(Apply(w, s), Apply(w, s).reqs[s.i])
  {
    assert RequestOk(w, w.reqs[s.i]);
    if s.Lookup? {
      var r := w.reqs[s.i];
      assert RowOk(w, r.id);
      DecidedOk(w, r);
      var p := LookedUp(w.rows, r);
      if p.out.Replayed? { ReplayStays(w, Apply(w, s), r.(phase := p), p.out.code, p.out.body); }
    }
  }

  lemma StepExclusive(w: World, s: Step)
    requires Inv(w) && Enabled(w, s) && !Missed(w, s)
    ensures Exclusive(Apply(w, s))
  {
    if s.Insert? || s.Lookup? {
      var r := w.reqs[s.i];
      assert RequestOk(w, r);
      if s.Lookup? { assert RowOk(w, r.id); DecidedOk(w, r); }
      forall k | 0 <= k < |w.reqs| && k != s.i && w.reqs[k].phase == Executing
        ensures s.Insert? && r.id !in w.rows ==> w.reqs[k].id != r.id
      { assert RequestOk(w, w.reqs[k]); }
    }
  }

  /** A step keeps the invariant if and only if it is no lookup that misses its row. */
  lemma StepKeepsIffFound(w: World, s: Step)
    requires Inv(w) && Enabled(w, s)
    ensures Inv(Apply(w, s)) <==> !Missed(w, s)
  {
    var w' := Apply(w, s);
    if Missed(w, s) {
      assert w'.reqs[s.i].phase == Executing && !RequestOk(w', w'.reqs[s.i]);
    } else {
      StepRows(w, s);
      StepExclusive(w, s);
      forall k | 0 <= k < |w'.reqs| ensures RequestOk(w', w'.reqs[k]) {
        if k < |w.reqs| && (s.Sweep? || s.Arrive? || s.i != k) { StandingRequest(w, s, k); }
        else if !s.Arrive? { MovedRequest(w, s); }
      }
    }
  }

  /** Over every run whose lookups find their rows: never two executions of one id, and every replay is a stored answer. */
  lemma {:induction false} RunKeeps(w: World, ss: seq<Step>)
    requires Inv(w) && IsRun(w, ss) && NoMiss(w, ss)
    ensures Inv(After(w, ss))
    decreases |ss|
  {
    if ss != [] {
      StepKeepsIffFound(w, ss[0]);
      RunKeeps(Apply(w, ss[0]), ss[1..]);
    }
  }

  // ----- Exclusion holds exactly as long as no lookup misses -----

  /** Whatever requests come and go from here on, no two execute under one id, lookups finding their rows. */
  ghost predicate Robust(w: World) {
    forall more | IsRun(w, more) && NoMiss(w, more) :: Exclusive(After(w, more))
  }

  lemma OneMore(w: World, s: Step)
    requires Enabled(w, s) && !Missed(w, s)
    ensures IsRun(w, [s]) && After(w, [s]) == Apply(w, s) && NoMiss(w, [s])
  {
    assert [s][1..] == [];
    assert IsRun(Apply(w, s), []) && After(Apply(w, s), []) == Apply(w, s) && NoMiss(Apply(w, s), []);
  }

  /** After a missed lookup the request executes without a row: the next one with its id executes beside it. */
  lemma MissIsNotRobust(w: World, s: Step)
    requires Enabled(w, s) && Missed(w, s)
    ensures !Robust(Apply(w, s))
  {
    var w1, r := Apply(w, s), w.reqs[s.i];
    var n := |w1.reqs|;
    var w2 := Apply(w1, Arrive(r.id, r.hash));
    var w3 := Apply(w2, Insert(n, 0));
    var more := [Arrive(r.id, r.hash), Insert(n, 0)];
    assert more[1..] == [Insert(n, 0)];
    OneMore(w2, Insert(n, 0));
    assert IsRun(w1, more) && After(w1, more) == w3 && NoMiss(w1, more);
    assert w3.reqs[s.i].phase == Executing && w3.reqs[n].phase == Executing && w3.reqs[s.i].id == w3.reqs[n].id;
  }

  /** Every state of the run is robust. */
  ghost predicate RobustThroughout(w: World, ss: seq<Step>)
    requires IsRun(w, ss)
    decreases |ss|
  { Robust(w) && (ss == [] || RobustThroughout(Apply(w, ss[0]), ss[1..])) }

  lemma InvIsRobust(w: World)
    requires Inv(w)
    ensures Robust(w)
  {
    forall more | IsRun(w, more) && NoMiss(w, more) ensures Exclusive(After(w, more)) { RunKeeps(w, more); }
  }

  /** A run stays robust throughout if and only if none of its lookups misses. */
  lemma {:induction false} RobustIffNoMiss(w: World, ss: seq<Step>)
    requires Inv(w) && IsRun(w, ss)
    ensures RobustThroughout(w, ss) <==> NoMiss(w, ss)
    decreases |ss|
  {
    InvIsRobust(w);
    if ss != [] {
      StepKeepsIffFound(w, ss[0]);
      if Missed(w, ss[0]) { MissIsNotRobust(w, ss[0]); }
      else { RobustIffNoMiss(Apply(w, ss[0]), ss[1..]); }
    }
  }

  // ----- Runs in which no row is deleted between a refused insert and its lookup -----

  /** Every request about to look up still has a row to find. */
  predicate Backed(w: World) {
    forall k | 0 <= k < |w.reqs| && w.reqs[k].phase == LookingUp :: w.reqs[k].id in w.rows
  }

  lemma BackedStep(w: World, s: Step)
    requires Backed(w) && Enabled(w, s) && Unsplit(w, s)
    ensures Backed(Apply(w, s)) && !Missed(w, s)
  {
    var w' := Apply(w, s);
    forall k | 0 <= k < |w'.reqs| && w'.reqs[k].phase == LookingUp ensures w'.reqs[k].id in w'.rows {
      if k < |w.reqs| && w.reqs[k].phase == LookingUp { assert w.reqs[k].id in w.rows; }
    }
  }

  /** Unsplit runs miss no row. */
  lemma {:induction false} UnsplitNeverMisses(w: World, ss: seq<Step>)
    requires Backed(w) && IsRun(w, ss) && UnsplitRun(w, ss)
    ensures NoMiss(w, ss)
    decreases |ss|
  {
    if ss != [] {
      BackedStep(w, ss[0]);
      UnsplitNeverMisses(Apply(w, ss[0]), ss[1..]);
    }
  }

  ghost predicate Start(w: World) {
    w.rows == map[] && w.log == [] && forall k | 0 <= k < |w.reqs| :: w.reqs[k].phase == Waiting
  }

  /**
   * From the start, a run is safe for all its continuations exactly when no lookup misses its row;
   * then at most one request per id executes, and replays are stored answers. Unsplit runs are such runs.
   */
  lemma MutualExclusion(w: World, ss: seq<Step>)
    requires Start(w) && IsRun(w, ss)
    ensures RobustThroughout(w, ss) <==> NoMiss(w, ss)
    ensures NoMiss(w, ss) ==> Exclusive(After(w, ss)) && RequestsOk(After(w, ss))
    ensures UnsplitRun(w, ss) ==> NoMiss(w, ss)
  {
    RobustIffNoMiss(w, ss);
    if NoMiss(w, ss) { RunKeeps(w, ss); }
    if UnsplitRun(w, ss) { UnsplitNeverMisses(w, ss); }
  }

  // ----- A completed reservation is not executed again until it is swept -----

  predicate SweepsNot(w: World, s: Step, id: string) { s.Sweep? && id in w.rows ==> !Swept(w.rows[id], s.cutoff) }

  ghost predicate NeverSwept(w: World, ss: seq<Step>, id: string)
    requires IsRun(w, ss)
    decreases |ss|
  { ss == [] || (SweepsNot(w, ss[0], id) && NeverSwept(Apply(w, ss[0]), ss[1..], id)) }

  predicate DoneRow(w: World, id: string) { id in w.rows && w.rows[id].status.Some? }

  lemma DoneStep(w: World, s: Step, id: string)
    requires Inv(w) && Enabled(w, s) && !Missed(w, s) && DoneRow(w, id) && SweepsNot(w, s, id)
    ensures var w' := Apply(w, s);
            && id in w'.rows && w'.rows[id] == w.rows[id] && |w'.reqs| >= |w.reqs|
            && forall k | 0 <= k < |w.reqs| && w.reqs[k].id == id ::
                 && w'.reqs[k].id == id && w'.reqs[k].hash == w.reqs[k].hash
                 && w'.reqs[k].phase != Executing
                 && (w'.reqs[k].phase == w.reqs[k].phase || w'.reqs[k].phase == LookingUp
                     || w'.reqs[k].phase == OutcomeOf(Decide(w.rows[id], w.reqs[k].hash)))
  {
    StepKeepsIffFound(w, s);
    var w' := Apply(w, s);
    if !s.Sweep? && !s.Arrive? { assert RequestOk(w, w.reqs[s.i]); }
    forall k | 0 <= k < |w.reqs| && w.reqs[k].id == id ensures w'.reqs[k].phase != Executing {
      assert RequestOk(w', w'.reqs[k]);
    }
  }

  /** How far a request with a completed reservation can have come. */
  predicate Settles(before: Phase, later: Phase, answer: Phase) {
    later == before || later == LookingUp || later == answer
  }

  /**
   * From a completed reservation on, until a sweep takes it: the row stands, nobody executes under
   * its id, and every request that is answered gets the stored answer or, for another payload, a conflict.
   */
  lemma {:induction false} CompletedIsNotExecutedAgain(w: World, ss: seq<Step>, id: string)
    requires Inv(w) && IsRun(w, ss) && NoMiss(w, ss) && NeverSwept(w, ss, id) && DoneRow(w, id)
    ensures var w' := After(w, ss);
            && id in w'.rows && w'.rows[id] == w.rows[id] && |w'.reqs| >= |w.reqs|
            && (forall k | 0 <= k < |w'.reqs| && w'.reqs[k].id == id :: w'.reqs[k].phase != Executing)
            && forall k | 0 <= k < |w.reqs| && w.reqs[k].id == id ::
                 && w'.reqs[k].id == id && w'.reqs[k].hash == w.reqs[k].hash && w'.reqs[k].phase != Executing
                 && Settles(w.reqs[k].phase, w'.reqs[k].phase, OutcomeOf(Decide(w.rows[id], w.reqs[k].hash)))
    decreases |ss|
  {
    if ss != [] {
      StepKeepsIffFound(w, ss[0]);
      DoneStep(w, ss[0], id);
      CompletedIsNotExecutedAgain(Apply(w, ss[0]), ss[1..], id);
    } else {
      forall k | 0 <= k < |w.reqs| && w.reqs[k].id == id ensures w.reqs[k].phase != Executing {
        assert RequestOk(w, w.reqs[k]);
      }
    }
  }

  // ----- An aborted reservation can be retried -----

  /** After an abort the next insert under the same id executes. */
  lemma AbortedCanBeRetried(w: World, i: nat, j: nat, now: nat)
    requires Inv(w) && Enabled(w, Abort(i)) && j < |w.reqs| && w.reqs[j].phase == Waiting && w.reqs[j].id == w.reqs[i].id
    ensures var w' := Apply(w, Abort(i));
            Enabled(w', Insert(j, now)) && Apply(w', Insert(j, now)).reqs[j].phase == Executing
  { assert RequestOk(w, w.reqs[i]); }

  // ----- The store's begin is the two steps in a row -----

  function PhaseAfter(m: Mode): Phase { if m == Proceed then Executing else OutcomeOf(m) }

  /**
   * ReservationStore.Begin with a key and only duplicate-key errors leaves the table and the answer
   * that the insert step and, after a refusal, the lookup step leave.
   */
  lemma BeginIsInsertThenLookup(w: World, i: nat, key: string, now: nat)
    requires Enabled(w, Insert(i, now)) && key != ""
    ensures var r := w.reqs[i];
            var mode, rows := BeginMode(w.rows, key, r.id, r.hash, NoError, false), BeginRows(w.rows, key, r.id, r.hash, now, NoError);
            var w1 := Apply(w, Insert(i, now));
            var end := if w1.reqs[i].phase == LookingUp then Apply(w1, Lookup(i)) else w1;
            end == Moved(w, i, PhaseAfter(mode)).(rows := rows)
  {
    var r := w.reqs[i];
    if r.id in w.rows {
      var w1 := Apply(w, Insert(i, now));
      assert Apply(w1, Lookup(i)).reqs == w.reqs[i := r.(phase := OutcomeOf(Decide(w.rows[r.id], r.hash)))];
    }
  }

  // ----- A split insert and lookup: two executions at once -----

  const THREE_REQUESTS := World(map[], [Request("k", "h", Waiting), Request("k", "h", Waiting), Request("k", "h", Waiting)], [])
  const SPLIT_RUN := [Insert(0, 0), Insert(1, 0), Abort(0), Lookup(1), Insert(2, 0)]

  /** The second request's lookup finds nothing after the first one's abort; it executes beside the third. */
  lemma SplitBreaksExclusion()
    ensures Start(THREE_REQUESTS) && IsRun(THREE_REQUESTS, SPLIT_RUN) && !NoMiss(THREE_REQUESTS, SPLIT_RUN)
    ensures !Exclusive(After(THREE_REQUESTS, SPLIT_RUN))
  {
    var w := THREE_REQUESTS;
    var r := w.reqs[0];
    var x, l, f := r.(phase := Executing), r.(phase := LookingUp), r.(phase := Answered(Failed));
    var row := map["k" := Fresh("h", 0)];
    var w1, w2, w3 := World(row, [x, r, r], []), World(row, [x, l, r], []), World(map[], [f, l, r], []);
    var w4, w5 := World(map[], [f, x, r], []), World(row, [f, x, x], []);
    var s1 := [Insert(1, 0), Abort(0), Lookup(1), Insert(2, 0)];
    var s2, s3, s4 := [Abort(0), Lookup(1), Insert(2, 0)], [Lookup(1), Insert(2, 0)], [Insert(2, 0)];
    assert Apply(w, Insert(0, 0)) == w1 && Apply(w1, Insert(1, 0)) == w2 && Apply(w2, Abort(0)) == w3;
    assert Apply(w3, Lookup(1)) == w4 && Apply(w4, Insert(2, 0)) == w5;
    assert SPLIT_RUN[1..] == s1 && s1[1..] == s2 && s2[1..] == s3 && s3[1..] == s4 && s4[1..] == [];
    assert IsRun(w4, s4) && After(w4, s4) == w5;
    assert IsRun(w3, s3) && After(w3, s3) == w5;
    assert Missed(w3, s3[0]) && !NoMiss(w3, s3);
    assert IsRun(w2, s2) && After(w2, s2) == w5 && !NoMiss(w2, s2);
    assert IsRun(w1, s1) && After(w1, s1) == w5 && !NoMiss(w1, s1);
    assert IsRun(w, SPLIT_RUN) && After(w, SPLIT_RUN) == w5;
    assert w5.reqs[1].phase == Executing && w5.reqs[2].phase == Executing;
  }
}
