/**
 * The phrase half of toArabic (lib/inventory-ar-dictionary.js:524-541) on the tokens of a name:
 * phrases of the table, longest first, become slots.
 */
module ArabicPhrases {
  import opened Text

  datatype Phrase = Phrase(words: seq<string>, ar: string)

  /** A token of the working text: a lower-case word, or the slot of a phrase already found. */
  datatype Token = Word(s: string) | Slot(n: nat)

  function LowerChar(c: char): char { if 'A' <= c <= 'Z' then 'a' + (c - 'A') else c }

  function Lower(s: string): (r: string)
    ensures |r| == |s|
  { seq(|s|, i requires 0 <= i < |s| => LowerChar(s[i])) }

  /** Only the ASCII capitals change, each to the letter 32 places on. */
  lemma LowerIs(s: string, i: nat)
    requires i < |s|
    ensures Lower(s)[i] as int == if 65 <= s[i] as int <= 90 then s[i] as int + 32 else s[i] as int
  {}

  function LowerAll(ts: seq<string>): (r: seq<string>)
    ensures |r| == |ts|
  { seq(|ts|, i requires 0 <= i < |ts| => Lower(ts[i])) }

  function Words(ts: seq<string>): (r: seq<Token>)
    ensures |r| == |ts|
  { seq(|ts|, i requires 0 <= i < |ts| => Word(ts[i])) }

  // ----- Phrases into slots -----

  predicate MatchAt(work: seq<Token>, words: seq<string>, i: nat) {
    i + |words| <= |work| && forall k | 0 <= k < |words| :: work[i + k] == Word(words[k])
  }

  predicate Occurs(work: seq<Token>, words: seq<string>) { exists i | 0 <= i <= |work| :: MatchAt(work, words, i) }

  function Replaced(work: seq<Token>, i: nat, len: nat, n: nat): seq<Token>
    requires i + len <= |work|
  { work[..i] + [Slot(n)] + work[i + len..] }

  predicate SlotsBelow(work: seq<Token>, n: nat) { forall i | 0 <= i < |work| && work[i].Slot? :: work[i].n < n }

  /** The working text with every slot replaced by the words it stands for. */
  function Expand(work: seq<Token>, used: seq<Phrase>): seq<string>
    requires SlotsBelow(work, |used|)
  {
    if work == [] then []
    else
      var last := work[|work| - 1];
      Expand(work[..|work| - 1], used) + (if last.Word? then [last.s] else used[last.n].words)
  }

  lemma SlotsConcat(a: seq<Token>, b: seq<Token>, n: nat)
    requires SlotsBelow(a, n) && SlotsBelow(b, n)
    ensures SlotsBelow(a + b, n)
  {
    var w := a + b;
    forall i | 0 <= i < |w| && w[i].Slot? ensures w[i].n < n { assert i < |a| || w[i] == b[i - |a|]; }
  }

  lemma {:induction false} ExpandConcat(a: seq<Token>, b: seq<Token>, used: seq<Phrase>)
    requires SlotsBelow(a, |used|) && SlotsBelow(b, |used|)
    ensures SlotsBelow(a + b, |used|) && Expand(a + b, used) == Expand(a, used) + Expand(b, used)
  {
    SlotsConcat(a, b, |used|);
    if b == [] {
      assert a + b == a;
    } else {
      var w := a + b;
      assert w[..|w| - 1] == a + b[..|b| - 1] && w[|w| - 1] == b[|b| - 1];
      ExpandConcat(a, b[..|b| - 1], used);
    }
  }

  lemma {:induction false} ExpandMore(work: seq<Token>, used: seq<Phrase>, p: Phrase)
    requires SlotsBelow(work, |used|)
    ensures SlotsBelow(work, |used + [p]|) && Expand(work, used + [p]) == Expand(work, used)
  { if work != [] { ExpandMore(work[..|work| - 1], used, p); } }

  lemma {:induction false} ExpandWords(work: seq<Token>, words: seq<string>, used: seq<Phrase>)
    requires |work| == |words| && MatchAt(work, words, 0)
    ensures SlotsBelow(work, |used|) && Expand(work, used) == words
  {
    if work != [] {
      var n := |work| - 1;
      assert forall k | 0 <= k < n :: work[0 + k] == Word(words[k]);
      ExpandWords(work[..n], words[..n], used);
      assert work[n] == work[0 + n] && words == words[..n] + [words[n]];
    }
  }

  /** Putting a slot for a phrase leaves the expansion as it was. */
  lemma SlotKeepsExpansion(work: seq<Token>, used: seq<Phrase>, p: Phrase, i: nat)
    requires SlotsBelow(work, |used|) && MatchAt(work, p.words, i)
    ensures var w := Replaced(work, i, |p.words|, |used|);
            SlotsBelow(w, |used + [p]|) && Expand(w, used + [p]) == Expand(work, used)
  {
    var a, m, b := work[..i], work[i..i + |p.words|], work[i + |p.words|..];
    var more := used + [p];
    assert work == (a + m) + b;
    forall k | 0 <= k < |p.words| ensures m[0 + k] == Word(p.words[k]) { assert m[k] == work[i + k]; }
    ExpandWords(m, p.words, used);
    ExpandConcat(a, m, used);
    ExpandConcat(a + m, b, used);
    ExpandMore(a, used, p);
    ExpandMore(b, used, p);
    OneSlot(more, |used|);
    ExpandConcat(a, [Slot(|used|)], more);
    ExpandConcat(a + [Slot(|used|)], b, more);
  }

  lemma OneSlot(used: seq<Phrase>, n: nat)
    requires n < |used|
    ensures SlotsBelow([Slot(n)], |used|) && Expand([Slot(n)], used) == used[n].words
  {
    assert [Slot(n)][..0] == [];
    assert [] + used[n].words == used[n].words;
  }

  /** Replacing one phrase by a slot brings no other phrase into being. */
  lemma NoNewMatch(work: seq<Token>, i: nat, len: nat, n: nat, words: seq<string>)
    requires i + len <= |work| && words != [] && !Occurs(work, words)
    ensures !Occurs(Replaced(work, i, len, n), words)
  {
    var w := Replaced(work, i, len, n);
    forall k | 0 <= k <= |w| ensures !MatchAt(w, words, k) {
      assert w[i] == Slot(n);
      if k + |words| <= |w| {
        if k + |words| <= i {
          assert !MatchAt(work, words, k);
          var j :| 0 <= j < |words| && work[k + j] != Word(words[j]);
          assert w[k + j] == work[k + j];
        } else if k > i {
          assert !MatchAt(work, words, k - 1 + len);
          var j :| 0 <= j < |words| && work[k - 1 + len + j] != Word(words[j]);
          assert w[k + j] == work[k - 1 + len + j];
        } else {
          assert w[k + (i - k)] != Word(words[i - k]);
        }
      }
    }
  }

  function Count(work: seq<Token>): nat { if work == [] then 0 else Count(work[..|work| - 1]) + (if work[|work| - 1].Word? then 1 else 0) }

  lemma {:induction false} CountConcat(a: seq<Token>, b: seq<Token>)
    ensures Count(a + b) == Count(a) + Count(b)
  {
    if b == [] {
      assert a + b == a;
    } else {
      assert (a + b)[..|a + b| - 1] == a + b[..|b| - 1];
      CountConcat(a, b[..|b| - 1]);
    }
  }

  lemma LastIsWord(m: seq<Token>)
    requires m != [] && m[|m| - 1].Word?
    ensures Count(m) > 0
  {}

  /** Every replacement leaves fewer words outside slots, so the inner loop ends. */
  lemma FewerWords(work: seq<Token>, words: seq<string>, i: nat, n: nat)
    requires words != [] && MatchAt(work, words, i)
    ensures Count(Replaced(work, i, |words|, n)) < Count(work)
  {
    var a, m, b := work[..i], work[i..i + |words|], work[i + |words|..];
    assert work == (a + m) + b;
    CountConcat(a, m);
    CountConcat(a + m, b);
    CountConcat(a, [Slot(n)]);
    CountConcat(a + [Slot(n)], b);
    assert m[|m| - 1] == work[i + (|words| - 1)] == Word(words[|words| - 1]);
    LastIsWord(m);
    assert [Slot(n)][..0] == [];
  }

  // ----- The loop as a function -----

  /** The working text, the translations in its slots, and the phrases they came from. */
  datatype Slotted = Slotted(work: seq<Token>, slots: seq<string>, used: seq<Phrase>)

  predicate NonEmptyPhrases(byLen: seq<Phrase>) { forall p | p in byLen :: p.words != [] }

  /** The first place at or after i where the words stand in a row. */
  function FirstAt(work: seq<Token>, words: seq<string>, i: nat): (at: Option<nat>)
    requires i <= |work| + 1
    ensures at.Some? ==> i <= at.value <= |work| && MatchAt(work, words, at.value)
    ensures at.Some? ==> forall k | i <= k < at.value :: !MatchAt(work, words, k)
    ensures at.None? ==> forall k | i <= k <= |work| :: !MatchAt(work, words, k)
    decreases |work| + 1 - i
  { if i == |work| + 1 then None else if MatchAt(work, words, i) then Some(i) else FirstAt(work, words, i + 1) }

  function OneFilled(st: Slotted, p: Phrase, i: nat): Slotted
    requires i + |p.words| <= |st.work|
  { Slotted(Replaced(st.work, i, |p.words|, |st.slots|), st.slots + [p.ar], st.used + [p]) }

  /** Every occurrence of one phrase into slots. */
  function Fill(st: Slotted, p: Phrase): Slotted
    requires p.words != []
    decreases Count(st.work)
  {
    match FirstAt(st.work, p.words, 0)
    case None => st
    case Some(i) =>
      FewerWords(st.work, p.words, i, |st.slots|);
      Fill(OneFilled(st, p, i), p)
  }

  function FillAll(st: Slotted, byLen: seq<Phrase>): Slotted
    requires NonEmptyPhrases(byLen)
  {
    if byLen == [] then st
    else
      assert byLen[|byLen| - 1] in byLen;
      Fill(FillAll(st, byLen[..|byLen| - 1]), byLen[|byLen| - 1])
  }

  function Unslotted(lower: seq<string>): Slotted { Slotted(Words(lower), [], []) }

  /** The working text of a name. */
  function Found(byLen: seq<Phrase>, lower: seq<string>): Slotted
    requires NonEmptyPhrases(byLen)
  { FillAll(Unslotted(lower), byLen) }

  // ----- What it keeps -----

  predicate UsedFrom(slots: seq<string>, used: seq<Phrase>, phrases: seq<Phrase>) {
    |slots| == |used| && forall k | 0 <= k < |used| :: used[k] in phrases && slots[k] == used[k].ar
  }

  /** Slots stand for phrases of the table, and expanding them gives the name back. */
  predicate Expands(st: Slotted, byLen: seq<Phrase>, lower: seq<string>) {
    UsedFrom(st.slots, st.used, byLen) && SlotsBelow(st.work, |st.used|) && Expand(st.work, st.used) == lower
  }

  lemma {:induction false} FillKeeps(st: Slotted, p: Phrase, byLen: seq<Phrase>, lower: seq<string>)
    requires p.words != [] && p in byLen && Expands(st, byLen, lower)
    ensures Expands(Fill(st, p), byLen, lower) && !Occurs(Fill(st, p).work, p.words)
    decreases Count(st.work)
  {
    var at := FirstAt(st.work, p.words, 0);
    if at.Some? {
      SlotKeepsExpansion(st.work, st.used, p, at.value);
      FewerWords(st.work, p.words, at.value, |st.slots|);
      FillKeeps(OneFilled(st, p, at.value), p, byLen, lower);
    }
  }

  lemma {:induction false} FillNoNew(st: Slotted, p: Phrase, words: seq<string>)
    requires p.words != [] && words != [] && !Occurs(st.work, words)
    ensures !Occurs(Fill(st, p).work, words)
    decreases Count(st.work)
  {
    var at := FirstAt(st.work, p.words, 0);
    if at.Some? {
      NoNewMatch(st.work, at.value, |p.words|, |st.slots|, words);
      FewerWords(st.work, p.words, at.value, |st.slots|);
      FillNoNew(OneFilled(st, p, at.value), p, words);
    }
  }

  lemma {:induction false} FillAllKeeps(byLen: seq<Phrase>, n: nat, lower: seq<string>)
    requires NonEmptyPhrases(byLen) && n <= |byLen|
    ensures NonEmptyPhrases(byLen[..n])
    ensures var st := FillAll(Unslotted(lower), byLen[..n]);
            Expands(st, byLen, lower) && forall k | 0 <= k < n :: !Occurs(st.work, byLen[k].words)
  {
    if n == 0 {
      ExpandWords(Words(lower), lower, []);
    } else {
      FillAllKeeps(byLen, n - 1, lower);
      var p := byLen[n - 1];
      assert p in byLen && byLen[..n][..n - 1] == byLen[..n - 1];
      var st := FillAll(Unslotted(lower), byLen[..n - 1]);
      FillKeeps(st, p, byLen, lower);
      forall k | 0 <= k < n - 1 ensures !Occurs(Fill(st, p).work, byLen[k].words) {
        assert byLen[k] in byLen;
        FillNoNew(st, p, byLen[k].words);
      }
    }
  }

  /** When the loops end no phrase of the table is left, and the slots stand for exactly the words they replaced. */
  lemma PhrasesFound(byLen: seq<Phrase>, lower: seq<string>)
    requires NonEmptyPhrases(byLen)
    ensures var st := Found(byLen, lower);
            Expands(st, byLen, lower) && forall k | 0 <= k < |byLen| :: !Occurs(st.work, byLen[k].words)
    ensures forall k | 0 <= k < |byLen| :: !StandsIn(Found(byLen, lower).work, byLen[k].words)
  {
    FillAllKeeps(byLen, |byLen|, lower);
    assert byLen[..|byLen|] == byLen;
    var work := Found(byLen, lower).work;
    forall k | 0 <= k < |byLen| && StandsIn(work, byLen[k].words) ensures Occurs(work, byLen[k].words) {
      var a: seq<Token>, b: seq<Token> :| work == a + Words(byLen[k].words) + b;
      assert MatchAt(work, byLen[k].words, |a|);
    }
  }

  /** The words stand in a row in the text. */
  ghost predicate StandsIn(work: seq<Token>, words: seq<string>) {
    exists a: seq<Token>, b: seq<Token> :: work == a + Words(words) + b
  }

  /** work.indexOf(needle). */
  method FindPhrase(work: seq<Token>, words: seq<string>) returns (at: Option<nat>)
    ensures at == FirstAt(work, words, 0)
  {
    for i := 0 to |work| + 1
      invariant FirstAt(work, words, 0) == FirstAt(work, words, i)
    {
      if MatchAt(work, words, i) { return Some(i); }
    }
    at := None;
  }

  /** The two loops: each phrase in the given order until it occurs no more. */
  method ReplacePhrases(lower: seq<string>, byLen: seq<Phrase>) returns (work: seq<Token>, slots: seq<string>)
    requires NonEmptyPhrases(byLen)
    ensures work == Found(byLen, lower).work && slots == Found(byLen, lower).slots
  {
    work := seq(|lower|, i requires 0 <= i < |lower| => Word(lower[i]));
    slots := [];
    ghost var used: seq<Phrase> := [];
    for n := 0 to |byLen|
      invariant NonEmptyPhrases(byLen[..n]) && Slotted(work, slots, used) == FillAll(Unslotted(lower), byLen[..n])
    {
      var p := byLen[n];
      assert p in byLen && byLen[..n + 1][..n] == byLen[..n];
      ghost var goal := Fill(Slotted(work, slots, used), p);
      var at := FindPhrase(work, p.words);
      while at.Some?
        invariant at == FirstAt(work, p.words, 0) && Fill(Slotted(work, slots, used), p) == goal
        decreases Count(work)
      {
        var i := at.value;
        FewerWords(work, p.words, i, |slots|);
        work := work[..i] + [Slot(|slots|)] + work[i + |p.words|..];
        slots, used := slots + [p.ar], used + [p];
        at := FindPhrase(work, p.words);
      }
    }
    assert byLen[..|byLen|] == byLen;
  }
}
