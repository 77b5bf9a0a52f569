/**
 * One worker's pass over its claimed rows (lib/image-sourcing-worker.js:121-312): which rows end in
 * a candidate, and how far apart the stored candidates of a menu item are.
 */
module ImageWorker {
  import opened Text
  import opened ImageHash
  import opened ImageQueue

  const PHASH_DUPE_HAMMING_THRESHOLD := 10

  datatype Candidate = Candidate(menu: string, job: string, sha: string, phash: string)

  /** What the menu, the barcode table, the product lookup and the image fetch give for one row. */
  datatype Seen = NoMenuItem | NoBarcode | LookupFailed | NoImage | FetchFailed | Dangerous | NotAnImage
                | Image(sha: string, phash: Option<string>)   // None: the bytes do not decode

  datatype Verdict = NoMatch | Throws | WouldMatch | Found(candidate: Candidate)

  predicate Near(a: Candidate, b: Candidate) {
    a.menu == b.menu && CloserOrEqual(DistanceOf(a.phash, b.phash), PHASH_DUPE_HAMMING_THRESHOLD)
  }

  /** Candidates of one menu item are pairwise more than ten bits apart and never the same bytes. */
  predicate Spaced(cs: seq<Candidate>) {
    forall i, j | 0 <= i < j < |cs| :: !Near(cs[i], cs[j]) && !(cs[i].menu == cs[j].menu && cs[i].sha == cs[j].sha)
  }

  predicate KnownBytes(cs: seq<Candidate>, menu: string, sha: string) { exists i | 0 <= i < |cs| :: cs[i].menu == menu && cs[i].sha == sha }

  predicate NearKnown(cs: seq<Candidate>, c: Candidate) { exists i | 0 <= i < |cs| :: Near(cs[i], c) }

  function Judge(cs: seq<Candidate>, it: Item, dryRun: bool, seen: Seen): Verdict {
    match seen
    case FetchFailed => Throws
    case Dangerous => Throws
    case Image(sha, phash) =>
      if KnownBytes(cs, it.menu, sha) then NoMatch
      else if phash.None? then Throws
      else
        var c := Candidate(it.menu, it.job, sha, phash.value);
        if NearKnown(cs, c) then NoMatch else if dryRun then WouldMatch else Found(c)
    case _ => NoMatch
  }

  /** A candidate of this menu item within ten bits of the hash, or with the same bytes. */
  predicate WithinTen(cs: seq<Candidate>, menu: string, phash: string) {
    exists i | 0 <= i < |cs| ::
      cs[i].menu == menu && DistanceOf(cs[i].phash, phash).Finite? && DistanceOf(cs[i].phash, phash).bits <= 10
  }

  predicate SameBytes(cs: seq<Candidate>, menu: string, sha: string) {
    exists i | 0 <= i < |cs| :: cs[i].menu == menu && cs[i].sha == sha
  }

  /**
   * The verdict on a row: retried exactly when the image cannot be fetched, is dangerous, or is new but
   * does not decode; matched exactly when a decoded image is new and far from every candidate of its
   * menu item, and then stored unless the job is a dry run.
   */
  lemma JudgeIs(cs: seq<Candidate>, it: Item, dryRun: bool, seen: Seen)
    ensures var v := Judge(cs, it, dryRun, seen);
            var unseen := seen.Image? && !SameBytes(cs, it.menu, seen.sha);
            var far := unseen && seen.phash.Some? && !WithinTen(cs, it.menu, seen.phash.value);
            && (v == Throws <==> seen == FetchFailed || seen == Dangerous || (unseen && seen.phash.None?))
            && (v.Found? <==> far && !dryRun) && (v.Found? ==> v.candidate == Candidate(it.menu, it.job, seen.sha, seen.phash.value))
            && (v == WouldMatch <==> far && dryRun)
            && (v == NoMatch <==> !v.Throws? && !far)
  {
    if seen.Image? && seen.phash.Some? {
      var c := Candidate(it.menu, it.job, seen.sha, seen.phash.value);
      assert NearKnown(cs, c) <==> WithinTen(cs, it.menu, seen.phash.value) by {
        if NearKnown(cs, c) {
          var i :| 0 <= i < |cs| && Near(cs[i], c);
          assert cs[i].menu == it.menu && DistanceOf(cs[i].phash, seen.phash.value).bits <= 10;
        }
        if WithinTen(cs, it.menu, seen.phash.value) {
          var i :| 0 <= i < |cs| && cs[i].menu == it.menu && DistanceOf(cs[i].phash, seen.phash.value).Finite?
                   && DistanceOf(cs[i].phash, seen.phash.value).bits <= 10;
          assert Near(cs[i], c);
        }
      }
    }
  }

  function DryRun(q: Queue, job: string): bool { job !in q.jobs || q.jobs[job].dryRun }

  /** A stored candidate keeps the spacing. */
  lemma FoundKeepsSpaced(cs: seq<Candidate>, it: Item, dryRun: bool, seen: Seen)
    requires Spaced(cs)
    ensures Judge(cs, it, dryRun, seen).Found? ==> !dryRun && Spaced(cs + [Judge(cs, it, dryRun, seen).candidate])
  {
    if Judge(cs, it, dryRun, seen).Found? {
      var c := Judge(cs, it, dryRun, seen).candidate;
      var more := cs + [c];
      forall i, j | 0 <= i < j < |more|
        ensures !Near(more[i], more[j]) && !(more[i].menu == more[j].menu && more[i].sha == more[j].sha)
      {
        if j == |cs| { assert !Near(cs[i], c); }
      }
    }
  }

  // ----- Whole items on the queue -----

  function ClosedIfFull(q: Queue, job: string): Queue { if ReachesTotal(q, job) then Closed(q, job) else q }

  function Finished(q: Queue, i: nat, matched: bool): Queue
    requires i < |q.items|
  { ClosedIfFull(Counted(WithStatus(q, i, Done), q.items[i].job, matched), q.items[i].job) }

  function Retried(q: Queue, i: nat, attempts: nat, dueAt: nat): Queue
    requires i < |q.items|
  {
    var n := attempts + 1;
    if n < MAX_ATTEMPTS then WithItem(q, i, Pending, n, dueAt)
    else ClosedIfFull(Counted(WithItem(q, i, Failed, n, dueAt), q.items[i].job, false), q.items[i].job)
  }

  /** The job after one of its rows ended: one more processed, one more matched and queued for a match, done when all are processed. */
  predicate CountedOnce(before: map<string, Job>, after: map<string, Job>, job: string, matched: bool) {
    if job !in before then after == before
    else
      var j := before[job];
      var m := if matched then 1 else 0;
      after == before[job := Job(j.total, j.processed + 1, j.matched + m, j.queued + m,
                                 j.done || (j.total > 0 && j.processed + 1 >= j.total), j.dryRun)]
  }

  /** A finished row is done and counted; nothing else of the queue changes. */
  lemma FinishedIs(q: Queue, i: nat, matched: bool)
    requires i < |q.items|
    ensures var r := Finished(q, i, matched);
            r.items == q.items[i := q.items[i].(status := Done)] && CountedOnce(q.jobs, r.jobs, q.items[i].job, matched)
  {}

  /** A retried row is pending again with one more attempt; the fifth attempt fails it for good and counts it. */
  lemma RetriedIs(q: Queue, i: nat, attempts: nat, dueAt: nat)
    requires i < |q.items|
    ensures var r := Retried(q, i, attempts, dueAt);
            if attempts < 4
            then r == q.(items := q.items[i := q.items[i].(status := Pending, attempts := attempts + 1, dueAt := dueAt)])
            else r.items == q.items[i := q.items[i].(status := Failed, attempts := attempts + 1, dueAt := dueAt)]
                 && CountedOnce(q.jobs, r.jobs, q.items[i].job, false)
  {}

  function RunningRows(q: Queue): set<nat> { set i: nat | i < |q.items| && q.items[i].status == Running }

  /**
   * The invariant with a single worker that holds the rows `mine` and stands between two items, on a
   * queue of any history: counters may be out of step and rows may have been left running.
   */
  predicate QueueOk(q: Queue, mine: set<nat>, hist: History) { Inv(World(q, [mine], [Free], hist)) }

  lemma CountAndClose(x: World, job: string, matched: bool)
    requires Inv(x) && |x.phases| == 1 && x.phases[0].Counting? && x.phases[0].job == job && x.phases[0].matched == matched
    ensures Inv(World(ClosedIfFull(Counted(x.q, job, matched), job), x.claims, [Free], x.hist))
  {
    StepKeeps(x, Count(0));
    var y := Apply(x, Count(0));
    StepKeeps(y, Check(0));
    var z := Apply(y, Check(0));
    if z.phases[0].Closing? {
      StepKeeps(z, Close(0));
      assert Apply(z, Close(0)) == World(ClosedIfFull(Counted(x.q, job, matched), job), x.claims, [Free], x.hist);
    } else {
      assert z == World(ClosedIfFull(Counted(x.q, job, matched), job), x.claims, [Free], x.hist);
    }
  }

  lemma FinishedOk(q: Queue, mine: set<nat>, hist: History, i: nat, matched: bool)
    requires QueueOk(q, mine, hist) && i in mine && i < |q.items|
    ensures QueueOk(Finished(q, i, matched), mine - {i}, hist)
  {
    var x := World(q, [mine], [Free], hist);
    StepKeeps(x, Finish(0, i, matched));
    var y := Apply(x, Finish(0, i, matched));
    CountAndClose(y, q.items[i].job, matched);
    assert y.claims == [mine - {i}];
  }

  lemma RetriedOk(q: Queue, mine: set<nat>, hist: History, i: nat, dueAt: nat)
    requires QueueOk(q, mine, hist) && i in mine && i < |q.items|
    ensures QueueOk(Retried(q, i, q.items[i].attempts, dueAt), mine - {i}, hist)
  {
    var x := World(q, [mine], [Free], hist);
    StepKeeps(x, Retry(0, i, dueAt));
    var y := Apply(x, Retry(0, i, dueAt));
    if q.items[i].attempts + 1 >= MAX_ATTEMPTS { CountAndClose(y, q.items[i].job, false); }
    else { assert y == World(Retried(q, i, q.items[i].attempts, dueAt), [mine - {i}], [Free], hist); }
    assert y.claims == [mine - {i}];
  }

  lemma ClaimedOk(q: Queue, hist: History, picked: set<nat>)
    requires QueueOk(q, {}, hist) && |picked| <= BATCH_SIZE
    requires forall i | i in picked :: i < |q.items| && q.items[i].status == Pending
    ensures QueueOk(q.(items := Claimed(q.items, picked)), picked, hist)
  {
    var x := World(q, [{}], [Free], hist);
    var step := Claim(0, picked, LatestDue(q.items));
    DueByLatest(q.items);
    assert Enabled(x, step);
    StepKeeps(x, step);
    assert Apply(x, step).claims == [picked];
  }

  function LatestDue(items: seq<Item>): nat {
    if items == [] then 0
    else
      var d := LatestDue(items[..|items| - 1]);
      if items[|items| - 1].dueAt > d then items[|items| - 1].dueAt else d
  }

  lemma {:induction false} DueByLatest(items: seq<Item>)
    ensures forall i | 0 <= i < |items| :: items[i].dueAt <= LatestDue(items)
  {
    if items != [] {
      DueByLatest(items[..|items| - 1]);
      forall i | 0 <= i < |items| - 1 ensures items[i].dueAt <= LatestDue(items) { assert items[..|items| - 1][i] == items[i]; }
    }
  }

  // ----- A pass over claimed rows -----

  datatype Store = Store(q: Queue, candidates: seq<Candidate>)

  function OneRow(st: Store, i: nat, attempts: nat, seen: Seen, dueAt: nat): (r: Store)
    requires i < |st.q.items|
    ensures |r.q.items| == |st.q.items|
  {
    var it := st.q.items[i];
    var v := Judge(st.candidates, it, DryRun(st.q, it.job), seen);
    if v.Throws? then Store(Retried(st.q, i, attempts, dueAt), st.candidates)
    else Store(Finished(st.q, i, !v.NoMatch?), if v.Found? then st.candidates + [v.candidate] else st.candidates)
  }

  function Pass(st: Store, picked: seq<nat>, attempts: seq<nat>, seen: seq<Seen>, dueAt: seq<nat>): (r: Store)
    requires |attempts| == |seen| == |dueAt| == |picked| && forall k | 0 <= k < |picked| :: picked[k] < |st.q.items|
    ensures |r.q.items| == |st.q.items|
  {
    if picked == [] then st
    else
      var n := |picked| - 1;
      OneRow(Pass(st, picked[..n], attempts[..n], seen[..n], dueAt[..n]), picked[n], attempts[n], seen[n], dueAt[n])
  }

  lemma PassNext(st: Store, picked: seq<nat>, attempts: seq<nat>, seen: seq<Seen>, dueAt: seq<nat>, k: nat)
    requires |attempts| == |seen| == |dueAt| == |picked| && k < |picked|
    requires forall k | 0 <= k < |picked| :: picked[k] < |st.q.items|
    ensures Pass(st, picked[..k + 1], attempts[..k + 1], seen[..k + 1], dueAt[..k + 1])
         == OneRow(Pass(st, picked[..k], attempts[..k], seen[..k], dueAt[..k]), picked[k], attempts[k], seen[k], dueAt[k])
  {
    assert picked[..k + 1][..k] == picked[..k] && attempts[..k + 1][..k] == attempts[..k];
    assert seen[..k + 1][..k] == seen[..k] && dueAt[..k + 1][..k] == dueAt[..k];
  }

  function AttemptsAt(items: seq<Item>, picked: seq<nat>): (r: seq<nat>)
    requires forall k | 0 <= k < |picked| :: picked[k] < |items|
    ensures |r| == |picked|
  { seq(|picked|, k requires 0 <= k < |picked| => items[picked[k]].attempts) }

  class Worker {
    var q: Queue
    var candidates: seq<Candidate>
    ghost var mine: set<nat>      // rows claimed and not yet followed to their end
    ghost const hist: History     // what failing statements did before

    ghost predicate Valid()
      reads this
    { QueueOk(q, mine, hist) && Spaced(candidates) }

    constructor (items: seq<Item>, jobs: map<string, Job>, ghost hist: History)
      requires QueueOk(Queue(items, jobs), {}, hist)
      ensures Valid() && q == Queue(items, jobs) && candidates == [] && mine == {} && this.hist == hist
    {
      q := Queue(items, jobs);
      candidates, mine := [], {};
      this.hist := hist;
    }

    method MaybeFinishJob(job: string)
      modifies this`q
      ensures q == ClosedIfFull(old(q), job)
    {
      if job !in q.jobs { return; }
      var j := q.jobs[job];
      if j.total > 0 && j.processed >= j.total {
        q := q.(jobs := q.jobs[job := j.(done := true)]);
      }
    }

    method FinishItem(i: nat, matched: bool)
      requires i < |q.items|
      modifies this`q
      ensures q == Finished(old(q), i, matched)
    {
      var job := q.items[i].job;
      q := q.(items := q.items[i := q.items[i].(status := Done)]);
      q := Counted(q, job, matched);
      MaybeFinishJob(job);
    }

    /** The near-duplicate guard over the stored candidates of the menu item. */
    method IsNearDupe(c: Candidate) returns (near: bool)
      ensures near <==> NearKnown(candidates, c)
    {
      near := false;
      for k := 0 to |candidates|
        invariant near <==> exists i | 0 <= i < k :: Near(candidates[i], c)
      {
        if candidates[k].menu == c.menu {
          var d := HammingDistanceHex(candidates[k].phash, c.phash);
          near := near || CloserOrEqual(d, PHASH_DUPE_HAMMING_THRESHOLD);
        }
      }
    }

    /** Follow one claimed row to its verdict; a throw leaves everything to the caller. */
    method ProcessOne(i: nat, seen: Seen) returns (threw: bool)
      requires Valid() && i in mine && i < |q.items|
      modifies this
      ensures Valid() && mine == (if threw then old(mine) else old(mine) - {i})
      ensures var it := old(q.items[i]);
              var v := Judge(old(candidates), it, DryRun(old(q), it.job), seen);
              && threw == v.Throws? && DryRun(old(q), it.job) == (it.job in old(q.jobs) ==> old(q.jobs)[it.job].dryRun)
              && q == (if threw then old(q) else Finished(old(q), i, !v.NoMatch?))
              && candidates == (if v.Found? then old(candidates) + [v.candidate] else old(candidates))
    {
      FinishedOk(q, mine, hist, i, false);
      FinishedOk(q, mine, hist, i, true);
      var it := q.items[i];
      var dryRun := it.job !in q.jobs || q.jobs[it.job].dryRun;
      FoundKeepsSpaced(candidates, it, dryRun, seen);
      if seen.FetchFailed? || seen.Dangerous? { return true; }
      if !seen.Image? {
        FinishMine(i, false);
        return false;
      }
      var known := exists k | 0 <= k < |candidates| :: candidates[k].menu == it.menu && candidates[k].sha == seen.sha;
      if known {
        FinishMine(i, false);
        return false;
      }
      if seen.phash.None? { return true; }
      var c := Candidate(it.menu, it.job, seen.sha, seen.phash.value);
      var near := IsNearDupe(c);
      if near {
        FinishMine(i, false);
        return false;
      }
      if !dryRun { candidates := candidates + [c]; }
      FinishMine(i, true);
      threw := false;
    }

    method FinishMine(i: nat, matched: bool)
      requires i < |q.items|
      modifies this`q, this`mine
      ensures q == Finished(old(q), i, matched) && mine == old(mine) - {i}
    {
      FinishItem(i, matched);
      mine := mine - {i};
    }

    /** The catch block: back to pending for a later attempt, or failed after the fifth. */
    method RetryItem(i: nat, attempts: nat, dueAt: nat)
      requires i < |q.items|
      modifies this`q
      ensures q == Retried(old(q), i, attempts, dueAt)
    {
      var job := q.items[i].job;
      var newCount := attempts + 1;
      var failed := newCount >= MAX_ATTEMPTS;
      q := WithItem(q, i, if failed then Failed else Pending, newCount, dueAt);
      if failed {
        q := Counted(q, job, false);
        MaybeFinishJob(job);
      }
    }

    /** Mark the selected rows as running, remembering the attempts read with them. */
    method ClaimBatch(picked: seq<nat>) returns (attempts: seq<nat>)
      requires Valid() && mine == {} && |picked| <= BATCH_SIZE
      requires forall k | 0 <= k < |picked| :: picked[k] < |q.items| && q.items[picked[k]].status == Pending
      requires forall j, k | 0 <= j < k < |picked| :: picked[j] != picked[k]
      modifies this`q, this`mine
      ensures Valid() && |q.items| == |old(q).items| && mine == Elements(picked)
      ensures q == old(q).(items := Claimed(old(q).items, Elements(picked)))
      ensures |attempts| == |picked| && forall k | 0 <= k < |picked| :: attempts[k] == q.items[picked[k]].attempts
    {
      attempts := [];
      ghost var items := q.items;
      for k := 0 to |picked|
        invariant |q.items| == |items| && q == old(q).(items := q.items)
        invariant |attempts| == k && forall j | 0 <= j < k :: attempts[j] == items[picked[j]].attempts
        invariant forall i | 0 <= i < |items| ::
                    q.items[i] == if i in picked[..k] then items[i].(status := Running) else items[i]
      {
        assert picked[..k + 1] == picked[..k] + [picked[k]];
        attempts := attempts + [q.items[picked[k]].attempts];
        q := WithStatus(q, picked[k], Running);
      }
      assert picked[..|picked|] == picked;
      assert q.items == Claimed(items, Elements(picked));
      SizeOfDistinct(picked);
      ClaimedOk(old(q), hist, Elements(picked));
      mine := Elements(picked);
    }

    /** One turn of the batch loop: the row's verdict, or the catch block. */
    method ProcessClaimed(i: nat, attempts: nat, seen: Seen, dueAt: nat)
      requires Valid() && i in mine && i < |q.items| && attempts == q.items[i].attempts
      modifies this
      ensures Valid() && mine == old(mine) - {i} && old(candidates) <= candidates
      ensures Store(q, candidates) == OneRow(Store(old(q), old(candidates)), i, attempts, seen, dueAt)
      ensures |q.items| == |old(q).items| && q.items[i].status != Running
      ensures forall j | 0 <= j < |q.items| && j != i :: q.items[j] == old(q).items[j]
    {
      RetriedOk(q, mine, hist, i, dueAt);
      var threw := ProcessOne(i, seen);
      if threw {
        RetryItem(i, attempts, dueAt);
        mine := mine - {i};
      }
    }

    method ProcessRows(picked: seq<nat>, attempts: seq<nat>, seen: seq<Seen>, dueAt: seq<nat>)
      requires Valid() && mine == Elements(picked) && |attempts| == |seen| == |dueAt| == |picked|
      requires AttemptsFrom(q.items, picked, attempts, 0)
      requires forall j, k | 0 <= j < k < |picked| :: picked[j] != picked[k]
      modifies this
      ensures Valid() && mine == {} && old(candidates) <= candidates && RunningRows(q) == old(RunningRows(q)) - Elements(picked)
      ensures Store(q, candidates) == Pass(Store(old(q), old(candidates)), picked, attempts, seen, dueAt)
    {
      ghost var start := Store(q, candidates);
      assert picked[0..] == picked && picked[..0] == [];
      for k := 0 to |picked|
        invariant Valid() && |q.items| == |start.q.items| && old(candidates) <= candidates
        invariant mine == Elements(picked[k..])
        invariant RunningRows(q) == RunningRows(start.q) - Elements(picked[..k])
        invariant AttemptsFrom(q.items, picked, attempts, k)
        invariant Store(q, candidates) == Pass(start, picked[..k], attempts[..k], seen[..k], dueAt[..k])
      {
        PassNext(start, picked, attempts, seen, dueAt, k);
        RestOfDistinct(picked, k);
        ghost var before := q;
        ProcessClaimed(picked[k], attempts[k], seen[k], dueAt[k]);
        AttemptsStay(before.items, q.items, picked, attempts, k);
        OneLessRunning(before, q, picked[k]);
        assert Elements(picked[..k + 1]) == Elements(picked[..k]) + {picked[k]} by { assert picked[..k + 1] == picked[..k] + [picked[k]]; }
      }
      assert picked[..|picked|] == picked && attempts[..|picked|] == attempts;
      assert seen[..|picked|] == seen && dueAt[..|picked|] == dueAt;
    }

    /** Claim the selected rows, then process them one after the other; none of them is left running. */
    method ProcessBatch(picked: seq<nat>, seen: seq<Seen>, dueAt: seq<nat>)
      requires Valid() && mine == {} && |picked| <= BATCH_SIZE && |seen| == |dueAt| == |picked|
      requires forall k | 0 <= k < |picked| :: picked[k] < |q.items| && q.items[picked[k]].status == Pending
      requires forall j, k | 0 <= j < k < |picked| :: picked[j] != picked[k]
      modifies this
      ensures Valid() && mine == {} && old(candidates) <= candidates && RunningRows(q) == old(RunningRows(q))
      ensures Store(q, candidates)
           == Pass(Store(old(q).(items := Claimed(old(q).items, Elements(picked))), old(candidates)),
                   picked, AttemptsAt(old(q).items, picked), seen, dueAt)
    {
      var attempts := ClaimBatch(picked);
      assert attempts == AttemptsAt(old(q).items, picked);
      ClaimedRunning(old(q), Elements(picked));
      ProcessRows(picked, attempts, seen, dueAt);
    }
  }

  /** A claim adds the claimed rows, which were pending, to the running ones. */
  lemma ClaimedRunning(q: Queue, picked: set<nat>)
    requires forall i | i in picked :: i < |q.items| && q.items[i].status == Pending
    ensures RunningRows(q.(items := Claimed(q.items, picked))) - picked == RunningRows(q)
  {
    var after := q.(items := Claimed(q.items, picked));
    forall i: nat ensures i in RunningRows(after) - picked <==> i in RunningRows(q) {}
  }

  lemma OneLessRunning(before: Queue, after: Queue, i: nat)
    requires |after.items| == |before.items| && i < |after.items| && after.items[i].status != Running
    requires forall j | 0 <= j < |after.items| && j != i :: after.items[j] == before.items[j]
    ensures RunningRows(after) == RunningRows(before) - {i}
  {}

  /** The attempts read with the claim still stand for the rows from k on. */
  predicate AttemptsFrom(items: seq<Item>, picked: seq<nat>, attempts: seq<nat>, k: nat)
    requires |attempts| == |picked|
  { forall j | k <= j < |picked| :: picked[j] < |items| && items[picked[j]].attempts == attempts[j] }

  lemma AttemptsStay(before: seq<Item>, after: seq<Item>, picked: seq<nat>, attempts: seq<nat>, k: nat)
    requires |attempts| == |picked| && k < |picked| && AttemptsFrom(before, picked, attempts, k)
    requires forall i, j | 0 <= i < j < |picked| :: picked[i] != picked[j]
    requires |after| == |before| && forall i | 0 <= i < |after| && i != picked[k] :: after[i] == before[i]
    ensures AttemptsFrom(after, picked, attempts, k + 1)
  {}

  function Elements(s: seq<nat>): set<nat> { set i | i in s }

  lemma RestOfDistinct(s: seq<nat>, k: nat)
    requires k < |s| && forall i, j | 0 <= i < j < |s| :: s[i] != s[j]
    ensures s[k] in Elements(s[k..]) && Elements(s[k + 1..]) == Elements(s[k..]) - {s[k]}
  {
    assert s[k..] == [s[k]] + s[k + 1..];
    assert s[k] !in s[k + 1..];
  }

  lemma {:induction false} SizeOfDistinct(s: seq<nat>)
    requires forall i, j | 0 <= i < j < |s| :: s[i] != s[j]
    ensures |Elements(s)| == |s|
  {
    if s == [] {
      assert Elements(s) == {};
    } else {
      var init, last := s[..|s| - 1], s[|s| - 1];
      assert s == init + [last];
      SizeOfDistinct(init);
      assert Elements(s) == Elements(init) + {last};
    }
  }
}
