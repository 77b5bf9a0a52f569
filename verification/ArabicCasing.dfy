/**
 * When codes keep their casing (lib/inventory-ar-dictionary.js:564-573): the counter into the
 * original tokens advances by the length of the first phrase with the slot's translation, which is
 * not always the phrase that was found.
 */
module ArabicCasing {
  import opened Text
  import opened ArabicPhrases
  import opened ArabicNames

  /** Where token i really begins among the original tokens. */
  function Offset(work: seq<Token>, used: seq<Phrase>, i: nat): nat
    requires i <= |work| && SlotsBelow(work, |used|)
  { |Expand(work[..i], used)| }

  lemma OffsetNext(work: seq<Token>, used: seq<Phrase>, i: nat)
    requires i < |work| && SlotsBelow(work, |used|)
    ensures Offset(work, used, i + 1) == Offset(work, used, i) + (if work[i].Word? then 1 else |used[work[i].n].words|)
  { assert work[..i + 1][..i] == work[..i]; }

  /** A word of the working text stands at its offset in the original, whatever the case. */
  lemma WordAtOffset(work: seq<Token>, used: seq<Phrase>, i: nat)
    requires i < |work| && SlotsBelow(work, |used|) && work[i].Word?
    ensures Offset(work, used, i) < |Expand(work, used)| && Expand(work, used)[Offset(work, used, i)] == work[i].s
  {
    assert work[..i + 1][..i] == work[..i];
    assert work == work[..i + 1] + work[i + 1..];
    ExpandConcat(work[..i + 1], work[i + 1..], used);
  }

  /** The original token behind a word of the working text. */
  function Origin(st: Slotted, original: seq<string>, i: nat): string
    requires i < |st.work| && st.work[i].Word? && SlotsBelow(st.work, |st.used|) && Expand(st.work, st.used) == LowerAll(original)
  {
    WordAtOffset(st.work, st.used, i);
    original[Offset(st.work, st.used, i)]
  }

  predicate KeptAt(byLen: seq<Phrase>, original: seq<string>, st: Slotted, i: nat)
    requires i < |st.work| && st.work[i].Word? && Expands(st, byLen, LowerAll(original))
  {
    Raw(original, Counter(byLen, st.work, st.slots, i), st.work[i].s) == Origin(st, original, i)
  }

  /**
   * A word keeps its casing exactly when the counter points at an equal token, or at no token of
   * these letters while the word is in lower case anyway.
   */
  lemma KeptAtIff(byLen: seq<Phrase>, original: seq<string>, st: Slotted, i: nat)
    requires i < |st.work| && st.work[i].Word? && Expands(st, byLen, LowerAll(original))
    ensures var oi, o := Counter(byLen, st.work, st.slots, i), Origin(st, original, i);
            KeptAt(byLen, original, st, i)
            <==> if oi < |original| && Lower(original[oi]) == Lower(o) then original[oi] == o else o == Lower(o)
  {
    WordAtOffset(st.work, st.used, i);
    assert LowerAll(original)[Offset(st.work, st.used, i)] == Lower(Origin(st, original, i)) == st.work[i].s;
  }

  /** The counter is right as long as it advanced by the true length at every slot. */
  lemma {:induction false} CounterIsOffset(byLen: seq<Phrase>, st: Slotted, i: nat)
    requires i <= |st.work| && Filled(st.work, st.slots) && |st.used| == |st.slots|
    requires forall k | 0 <= k < i && st.work[k].Slot? :: PhraseLen(byLen, st.slots[st.work[k].n]) == |st.used[st.work[k].n].words|
    ensures Counter(byLen, st.work, st.slots, i) == Offset(st.work, st.used, i)
  {
    if i > 0 {
      CounterIsOffset(byLen, st, i - 1);
      OffsetNext(st.work, st.used, i - 1);
    }
  }

  /** Slots of true length before a word keep its casing. */
  lemma TrueLengthsKeep(byLen: seq<Phrase>, original: seq<string>, st: Slotted, i: nat)
    requires i < |st.work| && st.work[i].Word? && Expands(st, byLen, LowerAll(original))
    requires forall k | 0 <= k < i && st.work[k].Slot? :: PhraseLen(byLen, st.slots[st.work[k].n]) == |st.used[st.work[k].n].words|
    ensures KeptAt(byLen, original, st, i)
  {
    CounterIsOffset(byLen, st, i);
    WordAtOffset(st.work, st.used, i);
    KeptAtIff(byLen, original, st, i);
  }

  // ----- A whole table -----

  function TextLen(words: seq<string>): nat {
    if words == [] then 0 else TextLen(words[..|words| - 1]) + |words[|words| - 1]| + 1
  }

  /** Lower-case phrases, longest text first, as the sorted table is; a phrase may stand in it twice. */
  predicate Table(byLen: seq<Phrase>) {
    && NonEmptyPhrases(byLen)
    && (forall i | 0 <= i < |byLen| :: LowerAll(byLen[i].words) == byLen[i].words)
    && forall i, j | 0 <= i < j < |byLen| :: TextLen(byLen[i].words) >= TextLen(byLen[j].words)
  }

  /** The first copy of its words: later copies are never found. */
  predicate FirstCopy(byLen: seq<Phrase>, n: nat) {
    n < |byLen| && forall i | 0 <= i < n :: byLen[i].words != byLen[n].words
  }

  /** Of every phrase that can be found, the first phrase of equal translation has as many words. */
  predicate LengthsAgree(byLen: seq<Phrase>) {
    forall n | 0 <= n < |byLen| && FirstCopy(byLen, n) :: PhraseLen(byLen, byLen[n].ar) == |byLen[n].words|
  }

  /** No word of the name loses its casing on the way. */
  predicate KeepsCasing(byLen: seq<Phrase>, original: seq<string>)
    requires NonEmptyPhrases(byLen)
  {
    PhrasesFound(byLen, LowerAll(original));
    var st := Found(byLen, LowerAll(original));
    forall i | 0 <= i < |st.work| && st.work[i].Word? :: KeptAt(byLen, original, st, i)
  }

  lemma {:induction false} TextLenConcat(a: seq<string>, b: seq<string>)
    ensures TextLen(a + b) == TextLen(a) + TextLen(b) && TextLen(a) >= |a|
  {
    if b == [] {
      assert a + b == a;
      if a != [] { TextLenConcat(a[..|a| - 1], []); assert a[..|a| - 1] + [] == a[..|a| - 1]; }
    } else {
      assert (a + b)[..|a + b| - 1] == a + b[..|b| - 1];
      TextLenConcat(a, b[..|b| - 1]);
    }
  }

  /** A text holds no phrase longer than itself, and of its own length only itself. */
  lemma NoLongerPhrase(ws: seq<string>, words: seq<string>, k: nat)
    requires k + |words| <= |ws| && ws[k..k + |words|] == words && TextLen(words) >= TextLen(ws)
    ensures words == ws
  {
    var a, b := ws[..k], ws[k + |words|..];
    assert ws == (a + words) + b;
    TextLenConcat(a + words, b);
    TextLenConcat(a, words);
    TextLenConcat(b, []);
    assert a == [] && b == [];
  }

  /** The name that spells one phrase and a code no phrase knows. */
  predicate CodeUnknown(byLen: seq<Phrase>, code: string) { forall p | p in byLen :: Lower(code) !in p.words }

  lemma NotInName(ws: seq<string>, code: string, words: seq<string>, k: nat)
    requires words != [] && code !in words && MatchAt(Words(ws + [code]), words, k)
    ensures k + |words| <= |ws| && ws[k..k + |words|] == words
  {
    var work := Words(ws + [code]);
    forall j | 0 <= j < |words| ensures k + j < |ws| && ws[k + j] == words[j] {
      assert work[k + j] == Word(words[j]) && words[j] in words;
      assert work[k + j].s == (ws + [code])[k + j];
    }
    var last := |words| - 1;
    assert words[last] in words;
    assert k + last < |ws|;
  }

  lemma NothingToFill(st: Slotted, p: Phrase)
    requires p.words != [] && !Occurs(st.work, p.words)
    ensures Fill(st, p) == st
  {}

  function PhraseAndCode(p: Phrase, code: string): Slotted { Slotted([Slot(0), Word(code)], [p.ar], [p]) }

  lemma CodeAlone(p: Phrase, code: string, words: seq<string>)
    requires words != [] && code !in words
    ensures !Occurs(PhraseAndCode(p, code).work, words)
  {
    var work := PhraseAndCode(p, code).work;
    forall k | 0 <= k <= |work| ensures !MatchAt(work, words, k) {
      if k + |words| <= |work| {
        assert words[0] in words && work[k + 0] != Word(words[0]);
      }
    }
  }

  lemma {:induction false} EarlierPhrasesPass(byLen: seq<Phrase>, n: nat, m: nat, code: string)
    requires Table(byLen) && FirstCopy(byLen, n) && m <= n && forall p | p in byLen :: code !in p.words
    ensures NonEmptyPhrases(byLen[..m])
    ensures var start := Unslotted(byLen[n].words + [code]); FillAll(start, byLen[..m]) == start
  {
    if m > 0 {
      EarlierPhrasesPass(byLen, n, m - 1, code);
      var q, ws := byLen[m - 1], byLen[n].words;
      assert q in byLen && byLen[..m][..m - 1] == byLen[..m - 1];
      var work := Words(ws + [code]);
      forall k | 0 <= k <= |work| ensures !MatchAt(work, q.words, k) {
        if MatchAt(work, q.words, k) {
          NotInName(ws, code, q.words, k);
          NoLongerPhrase(ws, q.words, k);
        }
      }
      NothingToFill(Unslotted(ws + [code]), q);
    }
  }

  lemma PhraseIsFilled(p: Phrase, code: string)
    requires p.words != [] && code !in p.words
    ensures Fill(Unslotted(p.words + [code]), p) == PhraseAndCode(p, code)
  {
    var st := Unslotted(p.words + [code]);
    assert MatchAt(st.work, p.words, 0);
    assert FirstAt(st.work, p.words, 0) == Some(0);
    assert st.work[|p.words|..] == [Word(code)] && st.work[..0] == [];
    FewerWords(st.work, p.words, 0, 0);
    assert OneFilled(st, p, 0) == PhraseAndCode(p, code);
    CodeAlone(p, code, p.words);
    NothingToFill(PhraseAndCode(p, code), p);
  }

  lemma {:induction false} LaterPhrasesPass(byLen: seq<Phrase>, n: nat, m: nat, code: string)
    requires Table(byLen) && FirstCopy(byLen, n) && n < m <= |byLen| && forall p | p in byLen :: code !in p.words
    ensures NonEmptyPhrases(byLen[..m])
    ensures FillAll(Unslotted(byLen[n].words + [code]), byLen[..m]) == PhraseAndCode(byLen[n], code)
  {
    var q := byLen[m - 1];
    assert q in byLen && byLen[..m][..m - 1] == byLen[..m - 1];
    if m == n + 1 {
      EarlierPhrasesPass(byLen, n, n, code);
      PhraseIsFilled(q, code);
    } else {
      LaterPhrasesPass(byLen, n, m - 1, code);
      CodeAlone(byLen[n], code, q.words);
      NothingToFill(PhraseAndCode(byLen[n], code), q);
    }
  }

  /** A phrase in any casing, followed by a code: the phrase is found whole and the code is left. */
  lemma PhraseThenCode(byLen: seq<Phrase>, n: nat, ws: seq<string>, code: string)
    requires Table(byLen) && FirstCopy(byLen, n) && LowerAll(ws) == byLen[n].words && CodeUnknown(byLen, code)
    ensures Found(byLen, LowerAll(ws + [code])) == PhraseAndCode(byLen[n], Lower(code))
  {
    assert LowerAll(ws + [code]) == byLen[n].words + [Lower(code)];
    assert byLen[..|byLen|] == byLen;
    LaterPhrasesPass(byLen, n, |byLen|, Lower(code));
  }

  /** After such a phrase the code keeps its casing exactly when the counter advanced by the phrase's own length. */
  lemma CodeAfterPhrase(byLen: seq<Phrase>, n: nat, ws: seq<string>, code: string)
    requires Table(byLen) && FirstCopy(byLen, n) && LowerAll(ws) == byLen[n].words && CodeUnknown(byLen, code) && Lower(code) != code
    ensures KeepsCasing(byLen, ws + [code]) <==> PhraseLen(byLen, byLen[n].ar) == |byLen[n].words|
    ensures PhraseLen(byLen, byLen[n].ar) != |byLen[n].words| ==>
              Spell(Dictionary(map[], {}), Word(Lower(code)), ws + [code], PhraseLen(byLen, byLen[n].ar), []) == Piece(Lower(code), false)
  {
    var original, st := ws + [code], PhraseAndCode(byLen[n], Lower(code));
    PhrasesFound(byLen, LowerAll(original));
    PhraseThenCode(byLen, n, ws, code);
    var len := PhraseLen(byLen, byLen[n].ar);
    assert Counter(byLen, st.work, st.slots, 1) == Counter(byLen, st.work, st.slots, 0) + len;
    OffsetNext(st.work, st.used, 0);
    assert Offset(st.work, st.used, 1) == |ws|;
    assert Origin(st, original, 1) == code;
    KeptAtIff(byLen, original, st, 1);
    assert byLen[n] in byLen;
    if len < |ws| { assert original[len] == ws[len] && Lower(ws[len]) == LowerAll(ws)[len] && byLen[n].words[len] in byLen[n].words; }
    assert KeptAt(byLen, original, st, 1) <==> len == |ws|;
    assert forall i | 0 <= i < |st.work| && st.work[i].Word? :: i == 1;
  }

  /** A code longer than every word of the table. */
  function LongCode(n: nat): string { "A" + Zeros(n) }

  lemma {:induction false} LongCodeUnknown(byLen: seq<Phrase>) returns (n: nat)
    ensures forall m | m >= n :: CodeUnknown(byLen, LongCode(m))
  {
    if byLen == [] {
      n := 0;
    } else {
      var k := LongCodeUnknown(byLen[..|byLen| - 1]);
      var last := byLen[|byLen| - 1];
      assert byLen == byLen[..|byLen| - 1] + [last];
      n := k + TextLen(last.words);
      forall m, p | m >= n && p in byLen ensures Lower(LongCode(m)) !in p.words {
        if p == last { LongerThanWords(last.words, Lower(LongCode(m))); }
        else { assert CodeUnknown(byLen[..|byLen| - 1], LongCode(m)) && p in byLen[..|byLen| - 1]; }
      }
    }
  }

  lemma {:induction false} LongerThanWords(words: seq<string>, w: string)
    requires |w| > TextLen(words)
    ensures w !in words
  {
    if words != [] {
      var init, last := words[..|words| - 1], words[|words| - 1];
      assert words == init + [last];
      LongerThanWords(init, w);
    }
  }

  lemma {:induction false} FoundAreFirstCopies(st: Slotted, p: Phrase, byLen: seq<Phrase>, n: nat)
    requires n < |byLen| && p == byLen[n] && p.words != []
    requires forall i | 0 <= i < n :: byLen[i].words != [] && !Occurs(st.work, byLen[i].words)
    requires forall q | q in st.used :: exists k | 0 <= k < |byLen| :: FirstCopy(byLen, k) && byLen[k] == q
    ensures forall q | q in Fill(st, p).used :: exists k | 0 <= k < |byLen| :: FirstCopy(byLen, k) && byLen[k] == q
    decreases Count(st.work)
  {
    var at := FirstAt(st.work, p.words, 0);
    if at.Some? {
      assert FirstCopy(byLen, n);
      FewerWords(st.work, p.words, at.value, |st.slots|);
      forall i | 0 <= i < n ensures !Occurs(OneFilled(st, p, at.value).work, byLen[i].words) {
        NoNewMatch(st.work, at.value, |p.words|, |st.slots|, byLen[i].words);
      }
      FoundAreFirstCopies(OneFilled(st, p, at.value), p, byLen, n);
    }
  }

  lemma {:induction false} AllFirstCopies(byLen: seq<Phrase>, n: nat, lower: seq<string>)
    requires NonEmptyPhrases(byLen) && n <= |byLen|
    ensures NonEmptyPhrases(byLen[..n])
    ensures forall q | q in FillAll(Unslotted(lower), byLen[..n]).used :: exists k | 0 <= k < |byLen| :: FirstCopy(byLen, k) && byLen[k] == q
  {
    if n > 0 {
      AllFirstCopies(byLen, n - 1, lower);
      FillAllKeeps(byLen, n - 1, lower);
      assert byLen[n - 1] in byLen && byLen[..n][..n - 1] == byLen[..n - 1];
      forall i | 0 <= i < n - 1 ensures byLen[i].words != [] { assert byLen[i] in byLen; }
      FoundAreFirstCopies(FillAll(Unslotted(lower), byLen[..n - 1]), byLen[n - 1], byLen, n - 1);
    }
  }

  /** With such a table every word of every name keeps its casing. */
  lemma AgreeingTableKeeps(byLen: seq<Phrase>, original: seq<string>)
    requires Table(byLen) && LengthsAgree(byLen)
    ensures KeepsCasing(byLen, original)
  {
    var st := Found(byLen, LowerAll(original));
    PhrasesFound(byLen, LowerAll(original));
    assert byLen[..|byLen|] == byLen;
    AllFirstCopies(byLen, |byLen|, LowerAll(original));
    forall i | 0 <= i < |st.work| && st.work[i].Word? ensures KeptAt(byLen, original, st, i) {
      forall k | 0 <= k < i && st.work[k].Slot? ensures PhraseLen(byLen, st.slots[st.work[k].n]) == |st.used[st.work[k].n].words| {
        var p := st.used[st.work[k].n];
        assert p in st.used;
        var n :| 0 <= n < |byLen| && FirstCopy(byLen, n) && byLen[n] == p;
      }
      TrueLengthsKeep(byLen, original, st, i);
    }
  }

  /**
   * Every name keeps the casing of its codes and untouched words if and only if, for each phrase
   * that can be found, the first phrase of equal translation has as many words.
   */
  lemma CasingIffLengthsAgree(byLen: seq<Phrase>)
    requires Table(byLen)
    ensures (forall original :: KeepsCasing(byLen, original)) <==> LengthsAgree(byLen)
  {
    if LengthsAgree(byLen) {
      forall original ensures KeepsCasing(byLen, original) { AgreeingTableKeeps(byLen, original); }
    } else {
      var n :| 0 <= n < |byLen| && FirstCopy(byLen, n) && PhraseLen(byLen, byLen[n].ar) != |byLen[n].words|;
      var m := LongCodeUnknown(byLen);
      var code := LongCode(m);
      assert code[0] == 'A' && Lower(code)[0] == 'a';
      CodeAfterPhrase(byLen, n, byLen[n].words, code);
      assert !KeepsCasing(byLen, byLen[n].words + [code]);
    }
  }

  // ----- The table of the program -----

  const SAFARI := "\U{0633}\U{0641}\U{0631}\U{064A}"

  /** The entries of PHRASES that share a translation with an entry of another length, longest first. */
  const TAKE_AWAY := [Phrase(["take", "away"], SAFARI), Phrase(["takeaway"], SAFARI), Phrase(["take", "out"], SAFARI)]

  /** 'Takeaway A-31': the counter runs one token ahead, and the code comes out as 'a-31'. */
  lemma TakeawayLosesCasing()
    ensures Table(TAKE_AWAY) && !LengthsAgree(TAKE_AWAY) && !KeepsCasing(TAKE_AWAY, ["Takeaway", "A-31"])
    ensures var st := Found(TAKE_AWAY, LowerAll(["Takeaway", "A-31"]));
            && Filled(st.work, st.slots)
            && forall d :: Spelled(d, TAKE_AWAY, ["Takeaway", "A-31"], st.work, st.slots) == [Piece(SAFARI, true), Piece("a-31", false)]
  {
    TakeAwayIsTable();
    assert Lower("Takeaway") == "takeaway" && Lower("A-31") == "a-31";
    assert LowerAll(["Takeaway"]) == TAKE_AWAY[1].words;
    assert ["Takeaway"] + ["A-31"] == ["Takeaway", "A-31"];
    assert TAKE_AWAY[0].ar == TAKE_AWAY[1].ar;
    assert PhraseLen(TAKE_AWAY, SAFARI) == 2 && FirstCopy(TAKE_AWAY, 1);
    CodeAfterPhrase(TAKE_AWAY, 1, ["Takeaway"], "A-31");
    PhraseThenCode(TAKE_AWAY, 1, ["Takeaway"], "A-31");
    var st := PhraseAndCode(TAKE_AWAY[1], "a-31");
    assert Counter(TAKE_AWAY, st.work, st.slots, 0) == 0;
    assert Counter(TAKE_AWAY, st.work, st.slots, 1) == 2;
    assert IsDigit("a-31"[2]) && IsPreserved("a-31");
    forall d ensures Spelled(d, TAKE_AWAY, ["Takeaway", "A-31"], st.work, st.slots) == [Piece(SAFARI, true), Piece("a-31", false)] {
      assert Spell(d, Word("a-31"), ["Takeaway", "A-31"], 2, st.slots) == Piece("a-31", false);
    }
  }

  lemma TakeAwayIsTable()
    ensures Table(TAKE_AWAY) && CodeUnknown(TAKE_AWAY, "A-31")
  {
    assert Lower("take") == "take" && Lower("away") == "away" && Lower("takeaway") == "takeaway" && Lower("out") == "out";
    assert Lower("A-31") == "a-31";
    var a, b, c := ["take", "away"], ["takeaway"], ["take", "out"];
    assert LowerAll(a) == a && LowerAll(b) == b && LowerAll(c) == c;
    assert a[..1] == ["take"] && c[..1] == ["take"] && ["take"][..0] == [] && b[..0] == [];
    assert TextLen(["take"]) == 5;
    assert TextLen(a) == 10 && TextLen(b) == 9 && TextLen(c) == 9;
  }
}
