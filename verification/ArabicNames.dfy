/**
 * toArabic of lib/inventory-ar-dictionary.js:543-637 on the tokens of a name: words are translated
 * one by one around the phrases already found, and a trailing head noun may move to the front.
 */
module ArabicNames {
  import opened Text
  import opened ArabicPhrases

  datatype Dictionary = Dictionary(words: map<string, string>, heads: set<string>)

  const UNITS := {"oz", "ml", "mls", "l", "ltr", "ltrs", "kg", "kgs", "g", "gm", "gr", "grm", "mg", "cm", "mm", "pcs",
                  "pc", "ctn", "ctns", "pkt", "pkts", "sch", "schs", "doz", "xl", "xxl"}

  const COORDINATORS := {"&", "+", "/", ",", "and", "or", "\U{0648}", "\U{0623}\U{0648}", "-", "\U{2013}", "\U{2014}", "|"}

  /** A measurement or code: it holds a digit, or is a unit. */
  predicate IsPreserved(token: string) { (exists i | 0 <= i < |token| :: IsDigit(token[i])) || Lower(token) in UNITS }

  /** tok.replace(/[^a-z]/g, ''). */
  function Clean(s: string): string {
    if s == "" then "" else Clean(s[..|s| - 1]) + (if 'a' <= s[|s| - 1] <= 'z' then [s[|s| - 1]] else "")
  }

  /** The letters a to z in their order, and nothing else. */
  lemma {:induction false} CleanIs(a: string, c: char, b: string)
    ensures Clean("") == "" && Clean(a + [c] + b) == Clean(a) + (if 97 <= c as int <= 122 then [c] else "") + Clean(b)
  {
    if b == "" {
      assert (a + [c] + b)[..|a|] == a;
    } else {
      var n := |b| - 1;
      assert (a + [c] + b)[..|a| + 1 + n] == a + [c] + b[..n];
      CleanIs(a, c, b[..n]);
    }
  }

  // ----- Word by word -----

  /** The first phrase with this translation decides how many tokens a slot is taken to span; '' spans one. */
  function PhraseLen(byLen: seq<Phrase>, ar: string): nat {
    if byLen == [] then 1 else if byLen[0].ar == ar then |byLen[0].words| else PhraseLen(byLen[1..], ar)
  }

  /** A translation counts for the words of the first phrase that has it, and for one when none has it. */
  lemma {:induction false} PhraseLenIs(before: seq<Phrase>, rest: seq<Phrase>, ar: string)
    requires forall p | p in before :: p.ar != ar
    ensures PhraseLen(before, ar) == 1
    ensures rest != [] && rest[0].ar == ar ==> PhraseLen(before + rest, ar) == |rest[0].words|
  {
    if before == [] {
      assert before + rest == rest;
    } else {
      assert before[0] in before && forall p | p in before[1..] :: p in before;
      assert (before + rest)[1..] == before[1..] + rest;
      PhraseLenIs(before[1..], rest, ar);
    }
  }

  predicate Filled(work: seq<Token>, slots: seq<string>) { SlotsBelow(work, |slots|) }

  /** The counter into the original tokens when the loop reaches token i. */
  function Counter(byLen: seq<Phrase>, work: seq<Token>, slots: seq<string>, i: nat): nat
    requires i <= |work| && Filled(work, slots)
  {
    if i == 0 then 0
    else Counter(byLen, work, slots, i - 1) + (if work[i - 1].Word? then 1 else PhraseLen(byLen, slots[work[i - 1].n]))
  }

  /** The token with its original casing when the counter points at it, in lower case otherwise. */
  function Raw(original: seq<string>, oi: nat, lower: string): string {
    if oi < |original| && Lower(original[oi]) == lower then original[oi] else lower
  }

  /** What one token becomes, and whether that is a translation. */
  datatype Piece = Piece(text: string, translated: bool)

  function Spell(d: Dictionary, t: Token, original: seq<string>, oi: nat, slots: seq<string>): Piece
    requires t.Slot? ==> t.n < |slots|
  {
    if t.Slot? then Piece(slots[t.n], true)
    else
      var raw := Raw(original, oi, t.s);
      if !IsPreserved(raw) && Clean(t.s) in d.words then Piece(d.words[Clean(t.s)], true) else Piece(raw, false)
  }

  /** The token-wise translation. */
  function Spelled(d: Dictionary, byLen: seq<Phrase>, original: seq<string>, work: seq<Token>, slots: seq<string>): (r: seq<Piece>)
    requires Filled(work, slots)
    ensures |r| == |work|
  {
    seq(|work|, i requires 0 <= i < |work| => Spell(d, work[i], original, Counter(byLen, work, slots, i), slots))
  }

  /**
   * A word with a digit in it, or one of the units in any case, is left as it is; any other word is
   * translated exactly when the dictionary has its letters, and left as it is otherwise.
   */
  lemma SpellIs(d: Dictionary, s: string, original: seq<string>, oi: nat, slots: seq<string>)
    ensures var raw := if oi < |original| && Lower(original[oi]) == s then original[oi] else s;
            var code := (exists c | c in raw :: '0' <= c <= '9') || Lower(raw) in UNITS;
            Spell(d, Word(s), original, oi, slots)
            == if !code && Clean(s) in d.words then Piece(d.words[Clean(s)], true) else Piece(raw, false)
  {
    var raw := if oi < |original| && Lower(original[oi]) == s then original[oi] else s;
    if exists i | 0 <= i < |raw| :: IsDigit(raw[i]) { var i :| 0 <= i < |raw| && IsDigit(raw[i]); assert raw[i] in raw; }
    if exists c | c in raw :: '0' <= c <= '9' { var c :| c in raw && '0' <= c <= '9'; var i :| 0 <= i < |raw| && raw[i] == c; assert IsDigit(raw[i]); }
  }

  function Texts(ps: seq<Piece>): (r: seq<string>)
    ensures |r| == |ps|
  { seq(|ps|, i requires 0 <= i < |ps| => ps[i].text) }

  /** Element h taken out and put back before element f. */
  function Moved<T>(s: seq<T>, f: nat, h: nat): (r: seq<T>)
    requires f < h < |s|
    ensures |r| == |s|
  { s[..f] + [s[h]] + s[f..h] + s[h + 1..] }

  predicate FirstTranslated(ps: seq<Piece>, f: nat) {
    f < |ps| && ps[f].translated && forall i | 0 <= i < f :: !ps[i].translated
  }

  /** A head noun after the first translation with nothing but preserved codes behind it. */
  predicate TrailingHead(d: Dictionary, work: seq<Token>, ps: seq<Piece>, h: nat)
    requires |ps| == |work|
  {
    && h < |ps| && ps[h].translated && work[h].Word? && Clean(work[h].s) in d.heads
    && forall i | h < i < |ps| :: !ps[i].translated && IsPreserved(ps[i].text)
  }

  /** What the loop knows after i tokens. */
  predicate Walked(d: Dictionary, work: seq<Token>, ps: seq<Piece>, i: nat, out: seq<string>, translatedAt: seq<nat>, trailing: Option<nat>)
    requires |ps| == |work| && i <= |ps|
  {
    && out == Texts(ps[..i])
    && (if translatedAt == [] then forall k | 0 <= k < i :: !ps[k].translated else FirstTranslated(ps[..i], translatedAt[0]))
    && (trailing.Some? ==> |translatedAt| >= 2 && translatedAt[0] < trailing.value && TrailingHead(d, work[..i], ps[..i], trailing.value))
    && (trailing.None? ==> NoHeadMoves(d, work[..i], ps[..i]))
  }

  /** No trailing head noun has a translation before it. */
  predicate NoHeadMoves(d: Dictionary, work: seq<Token>, ps: seq<Piece>)
    requires |ps| == |work|
  { forall h: nat | h < |ps| && TrailingHead(d, work, ps, h) :: forall j | 0 <= j < h :: !ps[j].translated }

  /** A token that joins two things: not a code, and a coordinator as written or in letters only. */
  predicate Joins(t: Token, p: Piece) {
    t.Word? && (p.translated || !IsPreserved(p.text)) && (t.s in COORDINATORS || Clean(t.s) in COORDINATORS)
  }

  predicate JoinsLater(work: seq<Token>, ps: seq<Piece>, k: nat)
    requires |ps| == |work| && k < |ps|
  { Joins(work[k], ps[k]) && exists j | 0 <= j < k :: ps[j].translated }

  /** A coordinator after the first translation. */
  predicate CoordinatorAfterFirst(work: seq<Token>, ps: seq<Piece>, i: nat)
    requires |ps| == |work| && i <= |ps|
  { exists k | 0 <= k < i :: JoinsLater(work, ps, k) }

  lemma Longer(work: seq<Token>, ps: seq<Piece>, i: nat)
    requires |ps| == |work| && i < |ps|
    ensures ps[..i + 1] == ps[..i] + [ps[i]] && work[..i + 1] == work[..i] + [work[i]]
    ensures Texts(ps[..i + 1]) == Texts(ps[..i]) + [ps[i].text]
  {}

  lemma WalkTranslated(d: Dictionary, work: seq<Token>, ps: seq<Piece>, i: nat, out: seq<string>,
                       translatedAt: seq<nat>, before: Option<nat>, trailing: Option<nat>)
    requires |ps| == |work| && i < |ps| && Walked(d, work, ps, i, out, translatedAt, before) && ps[i].translated
    requires trailing == if translatedAt != [] && work[i].Word? && Clean(work[i].s) in d.heads then Some(i) else None
    ensures Walked(d, work, ps, i + 1, out + [ps[i].text], translatedAt + [i], trailing)
  {
    Longer(work, ps, i);
    if translatedAt == [] { assert FirstTranslated(ps[..i + 1], i); }
    var w, p := work[..i + 1], ps[..i + 1];
    forall h: nat | trailing.None? && h < |p| && TrailingHead(d, w, p, h) ensures forall j | 0 <= j < h :: !p[j].translated {
      assert p[i].translated;
    }
  }

  /** A token that is not translated keeps a trailing head only if it is a code. */
  lemma WalkKept(d: Dictionary, work: seq<Token>, ps: seq<Piece>, i: nat, out: seq<string>,
                 translatedAt: seq<nat>, before: Option<nat>, trailing: Option<nat>)
    requires |ps| == |work| && i < |ps| && Walked(d, work, ps, i, out, translatedAt, before) && !ps[i].translated
    requires trailing == if IsPreserved(ps[i].text) then before else None
    ensures Walked(d, work, ps, i + 1, out + [ps[i].text], translatedAt, trailing)
  {
    Longer(work, ps, i);
    var w, p := work[..i + 1], ps[..i + 1];
    forall h: nat | trailing.None? && h < |p| && TrailingHead(d, w, p, h) ensures forall j | 0 <= j < h :: !p[j].translated {
      assert h < i && !p[i].translated && IsPreserved(p[i].text);
      assert TrailingHead(d, work[..i], ps[..i], h);
    }
  }

  /** A trailing head moved to the first translation. */
  ghost predicate HeadFirst(d: Dictionary, work: seq<Token>, ps: seq<Piece>, out: seq<string>)
    requires |ps| == |work|
  { exists f: nat, h: nat :: f < h < |ps| && FirstTranslated(ps, f) && TrailingHead(d, work, ps, h) && out == Moved(Texts(ps), f, h) }

  /** When the flip fires: a trailing head noun with a translation before it, and no coordinator after the first. */
  predicate Flips(d: Dictionary, work: seq<Token>, ps: seq<Piece>)
    requires |ps| == |work|
  { !NoHeadMoves(d, work, ps) && !CoordinatorAfterFirst(work, ps, |ps|) }

  /** The one head noun that can move: a translation before it, only codes after it. */
  lemma HeadMoves(d: Dictionary, work: seq<Token>, ps: seq<Piece>, f: nat, h: nat)
    requires |ps| == |work| && f < h && FirstTranslated(ps, f) && TrailingHead(d, work, ps, h)
    ensures !NoHeadMoves(d, work, ps)
  {}

  lemma CoordinatorNext(d: Dictionary, work: seq<Token>, ps: seq<Piece>, i: nat, out: seq<string>, translatedAt: seq<nat>,
                        trailing: Option<nat>, seen: bool)
    requires |ps| == |work| && i < |ps| && Walked(d, work, ps, i, out, translatedAt, trailing)
    requires seen <==> CoordinatorAfterFirst(work, ps, i)
    ensures seen || (translatedAt != [] && Joins(work[i], ps[i])) <==> CoordinatorAfterFirst(work, ps, i + 1)
  {
    if translatedAt != [] {
      assert ps[..i][translatedAt[0]] == ps[translatedAt[0]];
      if Joins(work[i], ps[i]) { assert JoinsLater(work, ps, i); }
    }
  }

  ghost predicate Spells(d: Dictionary, byLen: seq<Phrase>, original: seq<string>, work: seq<Token>, slots: seq<string>, ps: seq<Piece>)
    requires Filled(work, slots)
  {
    && |ps| == |work|
    && forall i {:trigger ps[i]} | 0 <= i < |work| :: ps[i] == Spell(d, work[i], original, Counter(byLen, work, slots, i), slots)
  }

  method WalkTokens(d: Dictionary, byLen: seq<Phrase>, original: seq<string>, work: seq<Token>, slots: seq<string>, ghost ps: seq<Piece>)
      returns (out: seq<string>, translatedAt: seq<nat>, trailing: Option<nat>, coordinatorAfterFirst: bool)
    requires Filled(work, slots) && Spells(d, byLen, original, work, slots, ps)
    ensures Walked(d, work, ps, |work|, out, translatedAt, trailing)
    ensures coordinatorAfterFirst <==> CoordinatorAfterFirst(work, ps, |ps|)
  {
    out, translatedAt := [], [];
    var oi := 0;
    trailing, coordinatorAfterFirst := None, false;
    for i := 0 to |work|
      invariant Walked(d, work, ps, i, out, translatedAt, trailing) && |out| == i && oi == Counter(byLen, work, slots, i)
      invariant coordinatorAfterFirst <==> CoordinatorAfterFirst(work, ps, i)
    {
      var tok := work[i];
      ghost var was := trailing;
      CoordinatorNext(d, work, ps, i, out, translatedAt, trailing, coordinatorAfterFirst);
      assert ps[i] == Spell(d, tok, original, oi, slots);
      if tok.Slot? {
        WalkTranslated(d, work, ps, i, out, translatedAt, was, None);
        translatedAt, out := translatedAt + [|out|], out + [slots[tok.n]];
        oi, trailing := oi + PhraseLen(byLen, slots[tok.n]), None;
        continue;
      }
      var raw := if oi < |original| && Lower(original[oi]) == tok.s then original[oi] else tok.s;
      oi := oi + 1;
      if IsPreserved(raw) {
        WalkKept(d, work, ps, i, out, translatedAt, was, trailing);
        out := out + [raw];
        continue;
      }
      var clean := Clean(tok.s);
      if translatedAt != [] && (tok.s in COORDINATORS || clean in COORDINATORS) { coordinatorAfterFirst := true; }
      if clean in d.words {
        trailing := if translatedAt != [] && clean in d.heads then Some(|out|) else None;
        WalkTranslated(d, work, ps, i, out, translatedAt, was, trailing);
        translatedAt := translatedAt + [|out|];
        out := out + [d.words[clean]];
        continue;
      }
      WalkKept(d, work, ps, i, out, translatedAt, was, None);
      out, trailing := out + [raw], None;
    }
  }

  /** The token-wise translation, with a trailing head noun moved to the first translation when the flip fires. */
  ghost predicate Arranged(d: Dictionary, work: seq<Token>, ps: seq<Piece>, out: seq<string>)
    requires |ps| == |work|
  { if Flips(d, work, ps) then HeadFirst(d, work, ps, out) else out == Texts(ps) }

  method Translate(d: Dictionary, byLen: seq<Phrase>, original: seq<string>, work: seq<Token>, slots: seq<string>)
      returns (out: seq<string>, reordered: bool)
    requires Filled(work, slots)
    ensures var ps := Spelled(d, byLen, original, work, slots);
            Arranged(d, work, ps, out) && (reordered <==> Flips(d, work, ps))
  {
    ghost var ps := Spelled(d, byLen, original, work, slots);
    var translatedAt, trailing, coordinatorAfterFirst;
    out, translatedAt, trailing, coordinatorAfterFirst := WalkTokens(d, byLen, original, work, slots, ps);
    assert ps[..|work|] == ps && work[..|work|] == work;
    reordered := false;
    if trailing.Some? && !coordinatorAfterFirst && |translatedAt| >= 2 && trailing.value > translatedAt[0] {
      var h, f := trailing.value, translatedAt[0];
      MoveByTwoSplices(out, f, h);
      HeadMoves(d, work, ps, f, h);
      var head := out[h];
      out := out[..h] + out[h + 1..];
      out := out[..f] + [head] + out[f..];
      reordered := true;
    }
  }

  /** splice(h, 1) and then splice(f, 0, head). */
  lemma MoveByTwoSplices(s: seq<string>, f: nat, h: nat)
    requires f < h < |s|
    ensures var t := s[..h] + s[h + 1..]; t[..f] + [s[h]] + t[f..] == Moved(s, f, h)
  {}

  // ----- What a move leaves alone -----

  function Untranslated(ps: seq<Piece>): seq<string> {
    if ps == [] then [] else Untranslated(ps[..|ps| - 1]) + (if ps[|ps| - 1].translated then [] else [ps[|ps| - 1].text])
  }

  lemma {:induction false} UntranslatedConcat(a: seq<Piece>, b: seq<Piece>)
    ensures Untranslated(a + b) == Untranslated(a) + Untranslated(b)
  {
    if b == [] {
      assert a + b == a;
    } else {
      assert (a + b)[..|a + b| - 1] == a + b[..|b| - 1];
      UntranslatedConcat(a, b[..|b| - 1]);
    }
  }

  /** The pieces around a move: before, between, behind. */
  lemma MoveSplits<T>(s: seq<T>, f: nat, h: nat)
    requires f < h < |s|
    ensures s == (s[..f] + s[f..h]) + ([s[h]] + s[h + 1..])
    ensures Moved(s, f, h) == (s[..f] + [s[h]]) + (s[f..h] + s[h + 1..])
  {}

  /** Codes and untouched words keep their text and their order. */
  lemma MoveKeepsCodes(ps: seq<Piece>, f: nat, h: nat)
    requires f < h < |ps| && ps[h].translated
    ensures Untranslated(Moved(ps, f, h)) == Untranslated(ps)
  {
    var a, b, c, x := ps[..f], ps[f..h], ps[h + 1..], [ps[h]];
    MoveSplits(ps, f, h);
    assert x[..0] == [] && Untranslated(x) == [];
    UntranslatedConcat(a + b, x + c);
    UntranslatedConcat(a, b);
    UntranslatedConcat(x, c);
    UntranslatedConcat(a + x, b + c);
    UntranslatedConcat(a, x);
    UntranslatedConcat(b, c);
    KeepsOrder(Untranslated(a), Untranslated(b), Untranslated(c));
  }

  lemma KeepsOrder(a: seq<string>, b: seq<string>, c: seq<string>)
    ensures (a + []) + (b + c) == (a + b) + ([] + c)
  {}

  /** Nothing is added or lost. */
  lemma MoveKeepsPieces(ps: seq<Piece>, f: nat, h: nat)
    requires f < h < |ps|
    ensures multiset(Moved(ps, f, h)) == multiset(ps)
  {
    var a, b, c, x := ps[..f], ps[f..h], ps[h + 1..], [ps[h]];
    MoveSplits(ps, f, h);
    assert multiset((a + b) + (x + c)) == (multiset(a) + multiset(b)) + (multiset(x) + multiset(c));
    assert multiset((a + x) + (b + c)) == (multiset(a) + multiset(x)) + (multiset(b) + multiset(c));
  }

  lemma MoveTexts(ps: seq<Piece>, f: nat, h: nat)
    requires f < h < |ps|
    ensures Texts(Moved(ps, f, h)) == Moved(Texts(ps), f, h)
  {}

  /** What the flip does to the untranslated tokens of any name: nothing. */
  lemma ArrangedKeepsCodes(d: Dictionary, work: seq<Token>, ps: seq<Piece>, out: seq<string>)
    requires |ps| == |work| && Arranged(d, work, ps, out)
    ensures exists final: seq<Piece> {:trigger Texts(final)} ::
              out == Texts(final) && multiset(final) == multiset(ps) && Untranslated(final) == Untranslated(ps)
  {
    if Flips(d, work, ps) {
      var f: nat, h: nat :|
        f < h < |ps| && FirstTranslated(ps, f) && TrailingHead(d, work, ps, h) && out == Moved(Texts(ps), f, h);
      MoveKeepsCodes(ps, f, h);
      MoveKeepsPieces(ps, f, h);
      MoveTexts(ps, f, h);
      assert out == Texts(Moved(ps, f, h));
    } else {
      assert out == Texts(ps);
    }
  }

  /** At most one element moves: the trailing head noun, to the first translation, exactly when the flip fires. */
  method ToArabic(d: Dictionary, byLen: seq<Phrase>, original: seq<string>) returns (out: seq<string>)
    requires NonEmptyPhrases(byLen)
    ensures var st := Found(byLen, LowerAll(original));
            Filled(st.work, st.slots) && Arranged(d, st.work, Spelled(d, byLen, original, st.work, st.slots), out)
  {
    var work, slots := ReplacePhrases(LowerAll(original), byLen);
    PhrasesFound(byLen, LowerAll(original));
    var reordered;
    out, reordered := Translate(d, byLen, original, work, slots);
  }
}
