/** Journal numbers as text (lib/glPosting.js:308-394, 531-532): three families share one column. */
module JournalNumbers {
  import opened Text

  /** 'JV-' + ymd + '-' + padStart(4): the dated family, one counter row per day. */
  function Dated(ymd: string, n: nat): string { "JV-" + ymd + "-" + Pad(n, 4) }

  function FlatJV(n: nat): string { "JV-" + Pad(n, 6) }

  function FlatJE(n: nat): string { "JE-" + Pad(n, 5) }

  /** LIKE 'JV-<ymd>-%' selects the journals a dated seed reads. */
  predicate DatedSeedMatches(ymd: string, number: string) { Like(number, "JV-" + ymd + "-%") }

  /** REGEXP '^<head>[0-9]+$', for head 'JV-' or 'JE-'. */
  predicate FlatSeedMatches(head: string, number: string) {
    head <= number && |number| > |head| && AllDigits(number[|head|..])
  }

  /** SUBSTRING_INDEX(s, '-', -1): what follows the last dash. */
  function AfterLastDash(s: string): string {
    if s == [] then ""
    else if s[|s| - 1] == '-' then ""
    else AfterLastDash(s[..|s| - 1]) + [s[|s| - 1]]
  }

  /** CAST(s AS UNSIGNED) reads the leading digits. */
  function LeadingDigits(s: string): (d: string)
    ensures AllDigits(d)
  { if s == [] || !IsDigit(s[0]) then "" else [s[0]] + LeadingDigits(s[1..]) }

  function DatedSeedParse(number: string): nat { Value(LeadingDigits(AfterLastDash(number))) }

  /** SUBSTRING(number, 4) is 1-based: drop the three characters of the head. */
  function FlatSeedParse(number: string): nat
  { Value(LeadingDigits(if |number| < 3 then "" else number[3..])) }

  lemma {:induction false} LeadingOfAllDigits(s: string)
    requires AllDigits(s)
    ensures LeadingDigits(s) == s
  {
    if s != [] { LeadingOfAllDigits(s[1..]); }
  }

  lemma {:induction false} AfterLastDashOfSuffix(head: string, d: string)
    requires AllDigits(d)
    ensures AfterLastDash(head + "-" + d) == d
  {
    var s := head + "-" + d;
    if d != [] {
      assert s[..|s| - 1] == head + "-" + d[..|d| - 1];
      AfterLastDashOfSuffix(head, d[..|d| - 1]);
    }
  }

  lemma YmdPlain(ymd: string)
    requires AllDigits(ymd)
    ensures Plain("JV-" + ymd + "-")
  {
    var p := "JV-" + ymd + "-";
    forall i | 0 <= i < |p| ensures p[i] != '%' && p[i] != '_' && p[i] != '\\' {
      if 3 <= i < 3 + |ymd| { assert p[i] == ymd[i - 3]; }
    }
  }

  /** A dated number is found by its own day's seed query, which reads back its serial. */
  lemma DatedRoundTrip(ymd: string, n: nat)
    requires AllDigits(ymd)
    ensures DatedSeedMatches(ymd, Dated(ymd, n))
    ensures DatedSeedParse(Dated(ymd, n)) == n
  {
    YmdPlain(ymd);
    var p := "JV-" + ymd + "-";
    LikePrefix(Dated(ymd, n), p);
    assert p + "%" == "JV-" + ymd + "-%";
    AfterLastDashOfSuffix("JV-" + ymd, Pad(n, 4));
    LeadingOfAllDigits(Pad(n, 4));
    ValueOfPad(n, 4);
  }

  lemma FlatRoundTrip(n: nat)
    ensures FlatSeedMatches("JV-", FlatJV(n)) && FlatSeedParse(FlatJV(n)) == n
    ensures FlatSeedMatches("JE-", FlatJE(n)) && FlatSeedParse(FlatJE(n)) == n
  {
    assert FlatJV(n)[3..] == Pad(n, 6) && FlatJE(n)[3..] == Pad(n, 5);
    LeadingOfAllDigits(Pad(n, 6));
    LeadingOfAllDigits(Pad(n, 5));
    ValueOfPad(n, 6);
    ValueOfPad(n, 5);
  }

  /** A day's seed query sees exactly that day's dated numbers. */
  lemma DatedSeedOfOtherDay(ymd: string, other: string, n: nat)
    requires AllDigits(ymd) && AllDigits(other)
    ensures DatedSeedMatches(ymd, Dated(other, n)) <==> ymd == other
  {
    YmdPlain(ymd);
    var p, s := "JV-" + ymd + "-", Dated(other, n);
    LikePrefix(s, p);
    assert p + "%" == "JV-" + ymd + "-%";
    if p <= s {
      var rest := s[|p|..];
      assert s[3..] == ymd + (['-'] + rest) && s[3..] == other + (['-'] + Pad(n, 4));
      FirstMark('-', ymd, rest, other, Pad(n, 4));
    }
    if ymd == other { assert p <= s; }
  }

  /** Two allocations with the same text are the same family, day and serial. */
  lemma NumbersInjective(y1: string, n1: nat, y2: string, n2: nat)
    requires AllDigits(y1) && AllDigits(y2)
    ensures Dated(y1, n1) == Dated(y2, n2) ==> y1 == y2 && n1 == n2
    ensures FlatJV(n1) == FlatJV(n2) ==> n1 == n2
    ensures FlatJE(n1) == FlatJE(n2) ==> n1 == n2
    ensures Dated(y1, n1) != FlatJV(n2) && Dated(y1, n1) != FlatJE(n2) && FlatJV(n1) != FlatJE(n2)
  {
    FlatRoundTrip(n1);
    FlatRoundTrip(n2);
    if Dated(y1, n1) == Dated(y2, n2) {
      DatedRoundTrip(y1, n1);
      DatedRoundTrip(y2, n2);
      DatedSeedOfOtherDay(y1, y2, n2);
    }
    FamiliesDiffer(y1, n1, n2);
  }

  lemma FamiliesDiffer(y1: string, n1: nat, n2: nat)
    requires AllDigits(y1)
    ensures Dated(y1, n1) != FlatJV(n2) && Dated(y1, n1) != FlatJE(n2) && FlatJV(n1) != FlatJE(n2)
  {
    var i := 3 + |y1|;
    assert Dated(y1, n1)[i] == '-' && Dated(y1, n1)[1] == 'V' && FlatJE(n2)[1] == 'E' && FlatJV(n1)[1] == 'V';
    var f := FlatJV(n2);
    if |f| > i { assert f[i] == Pad(n2, 6)[|y1|]; }
  }

  /** No seed query ever reads a number of another family. */
  lemma SeedsKeepToTheirFamily(ymd: string, y2: string, n: nat)
    requires AllDigits(ymd) && AllDigits(y2)
    ensures !DatedSeedMatches(ymd, FlatJV(n)) && !DatedSeedMatches(ymd, FlatJE(n))
    ensures !FlatSeedMatches("JV-", Dated(y2, n)) && !FlatSeedMatches("JV-", FlatJE(n))
    ensures !FlatSeedMatches("JE-", Dated(y2, n)) && !FlatSeedMatches("JE-", FlatJV(n))
  {
    YmdPlain(ymd);
    var p := "JV-" + ymd + "-";
    assert p + "%" == "JV-" + ymd + "-%";
    LikePrefix(FlatJV(n), p);
    LikePrefix(FlatJE(n), p);
    var f, i := FlatJV(n), 3 + |ymd|;
    if |f| > i { assert f[i] == Pad(n, 6)[|ymd|]; assert p[i] == '-'; }
    assert FlatJE(n)[1] == 'E' && p[1] == 'V' && f[1] == 'V';
    assert Dated(y2, n)[3..][|y2|] == '-';
  }

  // ----- The seed a first allocation of a key starts from -----

  /** COALESCE(MAX(parsed serial), 0) over the numbers the day's pattern selects. */
  function DatedSeed(ymd: string, numbers: seq<string>): nat {
    if numbers == [] then 0
    else
      var rest := DatedSeed(ymd, numbers[1..]);
      if DatedSeedMatches(ymd, numbers[0]) && DatedSeedParse(numbers[0]) > rest
      then DatedSeedParse(numbers[0]) else rest
  }

  /** The seed is the greatest serial of the day among the numbers, and 0 when no number is of the day. */
  lemma {:induction false} SeedIsGreatest(ymd: string, numbers: seq<string>, n: nat)
    requires AllDigits(ymd)
    ensures Dated(ymd, n) in numbers ==> n <= DatedSeed(ymd, numbers)
    ensures DatedSeed(ymd, numbers) > 0 ==>
              exists x | x in numbers :: ("JV-" + ymd + "-") <= x && DatedSeedParse(x) == DatedSeed(ymd, numbers)
  {
    if numbers != [] {
      var rest := numbers[1..];
      SeedIsGreatest(ymd, rest, n);
      DatedRoundTrip(ymd, n);
      YmdPlain(ymd);
      LikePrefix(numbers[0], "JV-" + ymd + "-");
      assert "JV-" + ymd + "-" + "%" == "JV-" + ymd + "-%";
      assert numbers == [numbers[0]] + rest;
      if DatedSeed(ymd, numbers) > 0 && DatedSeed(ymd, numbers) == DatedSeed(ymd, rest) {
        var x :| x in rest && ("JV-" + ymd + "-") <= x && DatedSeedParse(x) == DatedSeed(ymd, rest);
        assert x in numbers;
      } else if DatedSeed(ymd, numbers) > 0 {
        assert numbers[0] in numbers;
      }
    }
  }

  /** The three formats: a fixed head and at least four, six or five digits. */
  lemma FormatsAre(ymd: string, n: nat)
    ensures Dated(ymd, n) == "JV-" + ymd + "-" + Pad(n, 4) && FlatJV(n) == "JV-" + Pad(n, 6) && FlatJE(n) == "JE-" + Pad(n, 5)
    ensures n < 10000 ==> |Dated(ymd, n)| == 8 + |ymd|
    ensures n < 1000000 ==> |FlatJV(n)| == 9
    ensures n < 100000 ==> |FlatJE(n)| == 8
  {
    PowersOfTen();
    if n < 10000 { DigitsUpTo(n, 4); }
    if n < 1000000 { DigitsUpTo(n, 6); }
    if n < 100000 { DigitsUpTo(n, 5); }
  }

  function PowerOfTen(k: nat): nat { if k == 0 then 1 else 10 * PowerOfTen(k - 1) }

  lemma PowersOfTen()
    ensures PowerOfTen(4) == 10000 && PowerOfTen(5) == 100000 && PowerOfTen(6) == 1000000
  { assert PowerOfTen(2) == 100 && PowerOfTen(3) == 1000; }

  lemma {:induction false} DigitsUpTo(n: nat, k: nat)
    requires k > 0 && n < PowerOfTen(k)
    ensures |Digits(n)| <= k
  { if n >= 10 { DigitsUpTo(n / 10, k - 1); } }

  /** A serial above the seed yields a number no existing journal carries. */
  lemma {:induction false} AboveSeedIsUnused(ymd: string, numbers: seq<string>, n: nat)
    requires AllDigits(ymd) && n > DatedSeed(ymd, numbers)
    ensures Dated(ymd, n) !in numbers
  {
    if numbers != [] {
      AboveSeedIsUnused(ymd, numbers[1..], n);
      DatedRoundTrip(ymd, n);
    }
  }

  // ----- The counters -----

  /** Every day's counter is at least every serial of that day among the numbers in use. */
  ghost predicate Covers(serials: map<string, nat>, used: set<string>) {
    && (forall k | k in serials :: AllDigits(k))
    && forall k, n: nat | k in serials && Dated(k, n) in used :: n <= serials[k]
  }

  /** What the next allocation of the day gives: one past the counter, or past the seed when there is none. */
  function Next(serials: map<string, nat>, ymd: string, numbers: seq<string>): nat {
    1 + if ymd in serials then serials[ymd] else DatedSeed(ymd, numbers)
  }

  /** A number from the counter, or from any later one, is never a duplicate. */
  lemma NextIsUnused(serials: map<string, nat>, ymd: string, numbers: seq<string>, used: set<string>, n: nat)
    requires AllDigits(ymd) && Covers(serials, used) && n >= Next(serials, ymd, numbers)
    requires forall x | x in used :: x in numbers
    ensures Dated(ymd, n) !in used
  { if ymd !in serials { AboveSeedIsUnused(ymd, numbers, n); } }

  /** Moving the day's counter on to n, with or without a journal of that number, keeps the counters above the numbers. */
  lemma CoversAdvance(serials: map<string, nat>, ymd: string, numbers: seq<string>, used: set<string>, n: nat)
    requires AllDigits(ymd) && Covers(serials, used) && n >= Next(serials, ymd, numbers)
    requires forall x | x in used :: x in numbers
    ensures Covers(serials[ymd := n], used + {Dated(ymd, n)})
  {
    var after := serials[ymd := n];
    forall k, m: nat | k in after && Dated(k, m) in used + {Dated(ymd, n)} ensures m <= after[k] {
      NumbersInjective(k, m, ymd, n);
      if k == ymd && m > n { NextIsUnused(serials, ymd, numbers, used, m); }
    }
  }
}
