/**
 * Several workers storing candidates (lib/image-sourcing-worker.js:270-309): each reads the stored
 * candidates, passes the guards, and inserts later; other workers may insert in between.
 */
module CandidateRace {
  import opened ImageHash
  import opened ImageWorker

  /** A worker between its reads and its insert; `seen` candidates were stored when it read. */
  datatype Slot = Empty | Checked(c: Candidate, seen: nat)

  datatype Race = Race(stored: seq<Candidate>, slots: seq<Slot>)

  datatype Step = Read(w: nat, c: Candidate) | Insert(w: nat)

  predicate Enabled(x: Race, s: Step) {
    match s
    case Read(w, _) => w < |x.slots| && x.slots[w].Empty?
    case Insert(w) => w < |x.slots| && x.slots[w].Checked?
  }

  /** The guards on what is stored now; the unique key on (menu_id, sha256) refuses equal bytes at the insert. */
  function Apply(x: Race, s: Step): Race
    requires Enabled(x, s)
  {
    match s
    case Read(w, c) =>
      if KnownBytes(x.stored, c.menu, c.sha) || NearKnown(x.stored, c) then x
      else x.(slots := x.slots[w := Checked(c, |x.stored|)])
    case Insert(w) =>
      var c := x.slots[w].c;
      Race(if KnownBytes(x.stored, c.menu, c.sha) then x.stored else x.stored + [c], x.slots[w := Empty])
  }

  /** Pairwise more than ten bits apart per menu item. */
  predicate Apart(cs: seq<Candidate>) { forall i, j | 0 <= i < j < |cs| :: !Near(cs[i], cs[j]) }

  predicate DistinctBytes(cs: seq<Candidate>) {
    forall i, j | 0 <= i < j < |cs| :: !(cs[i].menu == cs[j].menu && cs[i].sha == cs[j].sha)
  }

  /** What a worker read is still at the front, and its candidate is near none of it. */
  predicate SlotOk(x: Race, sl: Slot) {
    sl.Checked? ==> sl.seen <= |x.stored| && !NearKnown(x.stored[..sl.seen], sl.c)
  }

  predicate Inv(x: Race) { DistinctBytes(x.stored) && forall w | 0 <= w < |x.slots| :: SlotOk(x, x.slots[w]) }

  /** No candidate stored since the worker read is near the one it inserts, or the unique key refuses it. */
  predicate Clear(x: Race, s: Step)
    requires Enabled(x, s)
  {
    s.Insert? ==>
      var c, seen := x.slots[s.w].c, x.slots[s.w].seen;
      KnownBytes(x.stored, c.menu, c.sha) || seen > |x.stored| || !NearKnown(x.stored[seen..], c)
  }

  /** No candidate of the same menu item was stored since the worker read. */
  predicate Undisturbed(x: Race, s: Step)
    requires Enabled(x, s)
  {
    s.Insert? ==> forall i | x.slots[s.w].seen <= i < |x.stored| :: x.stored[i].menu != x.slots[s.w].c.menu
  }

  lemma StepInv(x: Race, s: Step)
    requires Inv(x) && Enabled(x, s)
    ensures Inv(Apply(x, s)) && x.stored <= Apply(x, s).stored
  {
    var y := Apply(x, s);
    assert x.stored[..|x.stored|] == x.stored;
    forall w | 0 <= w < |y.slots| ensures SlotOk(y, y.slots[w]) {
      if w != s.w {
        assert SlotOk(x, x.slots[w]);
        if y.slots[w].Checked? { assert y.stored[..y.slots[w].seen] == x.stored[..y.slots[w].seen]; }
      }
    }
    if s.Insert? && y.stored != x.stored {
      var c := x.slots[s.w].c;
      forall i | 0 <= i < |x.stored| ensures !(x.stored[i].menu == c.menu && x.stored[i].sha == c.sha) {}
    }
  }

  lemma NearSplit(cs: seq<Candidate>, n: nat, c: Candidate)
    requires n <= |cs|
    ensures NearKnown(cs, c) <==> NearKnown(cs[..n], c) || NearKnown(cs[n..], c)
  {
    if NearKnown(cs, c) {
      var i :| 0 <= i < |cs| && Near(cs[i], c);
      if i < n { assert Near(cs[..n][i], c); } else { assert Near(cs[n..][i - n], c); }
    }
    if NearKnown(cs[..n], c) {
      var i :| 0 <= i < n && Near(cs[..n][i], c);
      assert Near(cs[i], c);
    }
    if NearKnown(cs[n..], c) {
      var i :| 0 <= i < |cs| - n && Near(cs[n..][i], c);
      assert Near(cs[n + i], c);
    }
  }

  lemma ApartSnoc(cs: seq<Candidate>, c: Candidate)
    ensures Apart(cs + [c]) <==> Apart(cs) && !NearKnown(cs, c)
  {
    var more := cs + [c];
    assert forall i | 0 <= i < |cs| :: more[i] == cs[i];
    if Apart(more) {
      forall i | 0 <= i < |cs| ensures !Near(cs[i], c) { assert !Near(more[i], more[|cs|]); }
      forall i, j | 0 <= i < j < |cs| ensures !Near(cs[i], cs[j]) { assert !Near(more[i], more[j]); }
    }
  }

  /** An insert keeps the stored candidates apart if and only if nothing near came in since the worker read. */
  lemma StepApart(x: Race, s: Step)
    requires Inv(x) && Enabled(x, s)
    ensures Apart(Apply(x, s).stored) <==> Apart(x.stored) && Clear(x, s)
  {
    if s.Insert? {
      var c, seen := x.slots[s.w].c, x.slots[s.w].seen;
      assert SlotOk(x, x.slots[s.w]);
      NearSplit(x.stored, seen, c);
      ApartSnoc(x.stored, c);
    }
  }

  lemma UndisturbedIsClear(x: Race, s: Step)
    requires Enabled(x, s) && Undisturbed(x, s)
    ensures Clear(x, s)
  {
    if s.Insert? && x.slots[s.w].seen <= |x.stored| {
      var c, seen := x.slots[s.w].c, x.slots[s.w].seen;
      forall i | 0 <= i < |x.stored| - seen ensures !Near(x.stored[seen..][i], c) { assert x.stored[seen..][i] == x.stored[seen + i]; }
    }
  }

  ghost predicate IsRun(x: Race, ss: seq<Step>)
    decreases |ss|
  { ss == [] || (Enabled(x, ss[0]) && IsRun(Apply(x, ss[0]), ss[1..])) }

  ghost function After(x: Race, ss: seq<Step>): Race
    requires IsRun(x, ss)
    decreases |ss|
  { if ss == [] then x else After(Apply(x, ss[0]), ss[1..]) }

  ghost predicate ClearRun(x: Race, ss: seq<Step>)
    requires IsRun(x, ss)
    decreases |ss|
  { ss == [] || (Clear(x, ss[0]) && ClearRun(Apply(x, ss[0]), ss[1..])) }

  ghost predicate UndisturbedRun(x: Race, ss: seq<Step>)
    requires IsRun(x, ss)
    decreases |ss|
  { ss == [] || (Undisturbed(x, ss[0]) && UndisturbedRun(Apply(x, ss[0]), ss[1..])) }

  lemma {:induction false} RunGrows(x: Race, ss: seq<Step>)
    requires Inv(x) && IsRun(x, ss)
    ensures Inv(After(x, ss)) && x.stored <= After(x, ss).stored
    decreases |ss|
  {
    if ss != [] {
      StepInv(x, ss[0]);
      RunGrows(Apply(x, ss[0]), ss[1..]);
    }
  }

  lemma PrefixApart(cs: seq<Candidate>, more: seq<Candidate>)
    requires cs <= more && Apart(more)
    ensures Apart(cs)
  { assert forall i | 0 <= i < |cs| :: cs[i] == more[i]; }

  /** Over any run of any workers the candidates stay apart if and only if every insert was clear; bytes never repeat. */
  lemma {:induction false} RunApartIffClear(x: Race, ss: seq<Step>)
    requires Inv(x) && Apart(x.stored) && IsRun(x, ss)
    ensures Apart(After(x, ss).stored) <==> ClearRun(x, ss)
    ensures DistinctBytes(After(x, ss).stored)
    decreases |ss|
  {
    RunGrows(x, ss);
    if ss != [] {
      StepInv(x, ss[0]);
      StepApart(x, ss[0]);
      var y := Apply(x, ss[0]);
      if Apart(y.stored) {
        RunApartIffClear(y, ss[1..]);
      } else {
        RunGrows(y, ss[1..]);
        if Apart(After(y, ss[1..]).stored) { PrefixApart(y.stored, After(y, ss[1..]).stored); }
      }
    }
  }

  lemma {:induction false} UndisturbedRunIsClear(x: Race, ss: seq<Step>)
    requires IsRun(x, ss) && UndisturbedRun(x, ss)
    ensures ClearRun(x, ss)
    decreases |ss|
  {
    if ss != [] {
      UndisturbedIsClear(x, ss[0]);
      UndisturbedRunIsClear(Apply(x, ss[0]), ss[1..]);
    }
  }

  predicate Start(x: Race) { x.stored == [] && forall w | 0 <= w < |x.slots| :: x.slots[w] == Empty }

  /** With no insert for the same menu item between a worker's read and its insert, all candidates are spaced. */
  lemma UndisturbedWorkersSpace(x: Race, ss: seq<Step>)
    requires Start(x) && IsRun(x, ss) && UndisturbedRun(x, ss)
    ensures Spaced(After(x, ss).stored)
  {
    UndisturbedRunIsClear(x, ss);
    RunApartIffClear(x, ss);
  }

  // ----- Two workers on one menu item -----

  /** The same photo in two encodings: equal difference hash, different bytes. */
  const FIRST_ENCODING := Candidate("m", "j", seq(64, _ => 'a'), seq(16, _ => '5'))
  const SECOND_ENCODING := Candidate("m", "j", seq(64, _ => 'b'), seq(16, _ => '5'))
  const RACING := [Read(0, FIRST_ENCODING), Read(1, SECOND_ENCODING), Insert(0), Insert(1)]

  lemma EncodingsAreNear()
    ensures Near(FIRST_ENCODING, SECOND_ENCODING) && FIRST_ENCODING.sha != SECOND_ENCODING.sha
    ensures |FIRST_ENCODING.phash| == |SECOND_ENCODING.phash| == 16 && Canonical(FIRST_ENCODING.phash)
  {
    assert FIRST_ENCODING.sha[0] == 'a' && SECOND_ENCODING.sha[0] == 'b';
    NoneDiffering(FIRST_ENCODING.phash, SECOND_ENCODING.phash, 16);
  }

  /** Two workers read before either inserts, and both inserts go through. */
  lemma RaceRuns(c: Candidate, d: Candidate)
    requires c.sha != d.sha
    ensures var x, ss := Race([], [Empty, Empty]), [Read(0, c), Read(1, d), Insert(0), Insert(1)];
            IsRun(x, ss) && After(x, ss).stored == [c, d]
  {
    var x := Race([], [Empty, Empty]);
    var x1, x2 := Race([], [Checked(c, 0), Empty]), Race([], [Checked(c, 0), Checked(d, 0)]);
    var x3, x4 := Race([c], [Empty, Checked(d, 0)]), Race([c, d], [Empty, Empty]);
    var ss := [Read(0, c), Read(1, d), Insert(0), Insert(1)];
    assert Apply(x, Read(0, c)) == x1 && Apply(x1, Read(1, d)) == x2;
    assert Apply(x2, Insert(0)) == x3 && Apply(x3, Insert(1)) == x4;
    var s1, s2, s3 := [Read(1, d), Insert(0), Insert(1)], [Insert(0), Insert(1)], [Insert(1)];
    assert ss[1..] == s1 && s1[1..] == s2 && s2[1..] == s3 && s3[1..] == [];
    assert IsRun(x3, s3) && After(x3, s3) == x4;
    assert IsRun(x2, s2) && After(x2, s2) == x4;
    assert IsRun(x1, s1) && After(x1, s1) == x4;
    assert IsRun(x, ss) && After(x, ss) == x4;
  }

  /** On the same photo this stores near duplicates: the runs are not undisturbed. */
  lemma RaceStoresNearDuplicates()
    ensures |FIRST_ENCODING.phash| == |SECOND_ENCODING.phash| == 16 && Canonical(FIRST_ENCODING.phash)
    ensures var x := Race([], [Empty, Empty]);
            && Start(x) && IsRun(x, RACING) && !UndisturbedRun(x, RACING)
            && After(x, RACING).stored == [FIRST_ENCODING, SECOND_ENCODING] && !Apart(After(x, RACING).stored)
  {
    var x := Race([], [Empty, Empty]);
    EncodingsAreNear();
    RaceRuns(FIRST_ENCODING, SECOND_ENCODING);
    var both := [FIRST_ENCODING, SECOND_ENCODING];
    assert Near(both[0], both[1]);
    RunApartIffClear(x, RACING);
    if UndisturbedRun(x, RACING) { UndisturbedRunIsClear(x, RACING); }
  }
}
