/** Strings as the program sees them: code-unit order, decimal text, trimming, SQL patterns. */
module Text {

  datatype Option<+T> = None | Some(value: T)

  // ----- Order: Array.prototype.sort() compares strings code unit by code unit -----

  /** Where a character stands by its UTF-16 code units: surrogate pairs come before U+E000 to U+FFFF. */
  function UnitRank(c: char): int { if 0xE000 <= c as int <= 0xFFFF then c as int + 0x110000 else c as int }

  predicate Le(a: string, b: string) {
    if a == [] then true
    else if b == [] then false
    else if a[0] != b[0] then UnitRank(a[0]) < UnitRank(b[0])
    else Le(a[1..], b[1..])
  }

  lemma {:induction false} LeTotal(a: string, b: string)
    ensures Le(a, b) || Le(b, a)
  {
    if a != [] && b != [] && a[0] == b[0] { LeTotal(a[1..], b[1..]); }
  }

  lemma {:induction false} LeAntisymmetric(a: string, b: string)
    requires Le(a, b) && Le(b, a)
    ensures a == b
  {
    if a != [] && b != [] {
      LeAntisymmetric(a[1..], b[1..]);
      assert a == [a[0]] + a[1..] && b == [b[0]] + b[1..];
    }
  }

  lemma {:induction false} LeTransitive(a: string, b: string, c: string)
    requires Le(a, b) && Le(b, c)
    ensures Le(a, c)
  {
    if a != [] && c != [] && a[0] == b[0] == c[0] { LeTransitive(a[1..], b[1..], c[1..]); }
  }

  /** The UTF-16 code units of a character. */
  function Units(c: char): (u: seq<int>)
    ensures u != []
  {
    var n := c as int;
    if n < 0x10000 then [n] else [0xD800 + (n - 0x10000) / 0x400, 0xDC00 + (n - 0x10000) % 0x400]
  }

  function AllUnits(s: string): seq<int> { if s == [] then [] else Units(s[0]) + AllUnits(s[1..]) }

  predicate UnitsLe(x: seq<int>, y: seq<int>) {
    x == [] || (y != [] && (x[0] < y[0] || (x[0] == y[0] && UnitsLe(x[1..], y[1..]))))
  }

  lemma {:induction false} UnitsLePrefix(p: seq<int>, x: seq<int>, y: seq<int>)
    ensures UnitsLe(p + x, p + y) <==> UnitsLe(x, y)
  {
    if p == [] {
      assert p + x == x && p + y == y;
    } else {
      assert (p + x)[1..] == p[1..] + x && (p + y)[1..] == p[1..] + y;
      UnitsLePrefix(p[1..], x, y);
    }
  }

  lemma UnitsOfOther(c: char, d: char, x: seq<int>, y: seq<int>)
    requires c != d
    ensures UnitsLe(Units(c) + x, Units(d) + y) <==> UnitRank(c) < UnitRank(d)
  {
    var u, v := Units(c) + x, Units(d) + y;
    assert u[0] == Units(c)[0] && v[0] == Units(d)[0];
    if c as int >= 0x10000 && d as int >= 0x10000 {
      assert u[1..][0] == Units(c)[1] && v[1..][0] == Units(d)[1];
      assert u[0] == v[0] ==> u[1] != v[1];
    }
  }

  /** Le is the lexicographic order of UTF-16 code units. */
  lemma {:induction false} LeIsUnitOrder(a: string, b: string)
    ensures Le(a, b) <==> UnitsLe(AllUnits(a), AllUnits(b))
  {
    if a != [] && b != [] {
      if a[0] == b[0] {
        UnitsLePrefix(Units(a[0]), AllUnits(a[1..]), AllUnits(b[1..]));
        LeIsUnitOrder(a[1..], b[1..]);
      } else {
        UnitsOfOther(a[0], b[0], AllUnits(a[1..]), AllUnits(b[1..]));
      }
    }
  }

  predicate IsLeast(m: string, s: set<string>) {
    m in s && forall x | x in s :: Le(m, x)
  }

  lemma {:induction false} LeastExists(s: set<string>)
    requires s != {}
    ensures exists m :: IsLeast(m, s)
  {
    var y :| y in s;
    var rest := s - {y};
    if rest == {} {
      assert s == {y};
      LeTotal(y, y);
      assert IsLeast(y, s);
    } else {
      LeastExists(rest);
      var m :| IsLeast(m, rest);
      LeTotal(y, m);
      LeTotal(y, y);
      var w := if Le(y, m) then y else m;
      forall x | x in s ensures Le(w, x) {
        if x != y && w == y { LeTransitive(y, m, x); }
      }
      assert IsLeast(w, s);
    }
  }

  function Least(s: set<string>): (m: string)
    requires s != {}
    ensures IsLeast(m, s)
  {
    LeastExists(s);
    assert forall a, b | IsLeast(a, s) && IsLeast(b, s) :: a == b by {
      forall a, b | IsLeast(a, s) && IsLeast(b, s) ensures a == b { LeAntisymmetric(a, b); }
    }
    var m :| IsLeast(m, s);
    m
  }

  /** The keys of a set in ascending order, each once. */
  function SortSet(s: set<string>): (r: seq<string>)
    ensures forall x :: x in r <==> x in s
    ensures |r| == |s|
    ensures forall i, j | 0 <= i < j < |r| :: Le(r[i], r[j]) && r[i] != r[j]
  {
    if s == {} then []
    else
      var m := Least(s);
      [m] + SortSet(s - {m})
  }

  // ----- Decimal text -----

  function Digit(d: nat): (c: char)
    requires d < 10
    ensures IsDigit(c) && DigitValue(c) == d
  { '0' + d as char }

  predicate IsDigit(c: char) { '0' <= c <= '9' }

  function DigitValue(c: char): nat
    requires IsDigit(c)
  { (c - '0') as nat }

  predicate AllDigits(s: string) { forall i | 0 <= i < |s| :: IsDigit(s[i]) }

  function Value(s: string): nat
    requires AllDigits(s)
  { if s == [] then 0 else Value(s[..|s| - 1]) * 10 + DigitValue(s[|s| - 1]) }

  function Digits(n: nat): (s: string)
    ensures s != [] && AllDigits(s)
  { if n < 10 then [Digit(n)] else Digits(n / 10) + [Digit(n % 10)] }

  function Zeros(n: nat): (s: string)
    ensures |s| == n && AllDigits(s)
  { seq(n, _ => '0') }

  /** String(n).padStart(width, '0'). */
  function Pad(n: nat, width: nat): (s: string)
    ensures s != [] && AllDigits(s) && |s| >= width
  { var d := Digits(n); if |d| < width then Zeros(width - |d|) + d else d }

  lemma {:induction false} ValueOfDigits(n: nat)
    ensures Value(Digits(n)) == n
  {
    if n >= 10 {
      ValueOfDigits(n / 10);
      assert Digits(n)[..|Digits(n)| - 1] == Digits(n / 10);
    } else {
      assert Digits(n)[..0] == [];
    }
  }

  lemma {:induction false} ValueOfZeros(n: nat, d: string)
    requires AllDigits(d)
    ensures Value(Zeros(n) + d) == Value(d)
    decreases |d| + n
  {
    var s := Zeros(n) + d;
    if d != [] {
      assert s[..|s| - 1] == Zeros(n) + d[..|d| - 1];
      ValueOfZeros(n, d[..|d| - 1]);
    } else if n > 0 {
      assert s[..|s| - 1] == Zeros(n - 1) + d;
      ValueOfZeros(n - 1, d);
    }
  }

  lemma ValueOfPad(n: nat, width: nat)
    ensures Value(Pad(n, width)) == n
  {
    var d := Digits(n);
    if |d| < width {
      ValueOfZeros(width - |d|, d);
      assert Pad(n, width) == Zeros(width - |d|) + d;
    } else {
      assert Pad(n, width) == d;
    }
    ValueOfDigits(n);
  }

  /** The decimal places of a padded number, from the right. */
  lemma PadPlaces(n: nat, width: nat)
    ensures n < 10 && width <= 1 ==> Pad(n, width) == ["0123456789"[n]]
    ensures n >= 10 || width > 1 ==> Pad(n, width) == Pad(n / 10, if width > 0 then width - 1 else 0) + ["0123456789"[n % 10]]
  {
    var d := Digits(n);
    assert d[|d| - 1] == "0123456789"[n % 10];
    if n >= 10 {
      assert d == Digits(n / 10) + [Digit(n % 10)];
      if |d| < width { assert Zeros(width - |d|) + d == Zeros(width - 1 - |Digits(n / 10)|) + Digits(n / 10) + [Digit(n % 10)]; }
    } else if width > 1 {
      assert Digits(0) == [Digit(0)];
      assert Zeros(width - 1) == Zeros(width - 2) + ['0'];
    }
  }

  // ----- SQL LIKE: '%' any run, '_' any character, '\' escapes the next one -----

  predicate Like(text: string, pattern: string)
    decreases |text| + |pattern|
  {
    if pattern == [] then text == []
    else if pattern[0] == '%' then
      Like(text, pattern[1..]) || (text != [] && Like(text[1..], pattern))
    else if pattern[0] == '_' then text != [] && Like(text[1..], pattern[1..])
    else if pattern[0] == '\\' && |pattern| >= 2 then
      text != [] && text[0] == pattern[1] && Like(text[1..], pattern[2..])
    else text != [] && text[0] == pattern[0] && Like(text[1..], pattern[1..])
  }

  predicate Plain(s: string) { '%' !in s && '_' !in s && '\\' !in s }

  lemma {:induction false} LikeEverything(text: string)
    ensures Like(text, "%")
  {
    if text != [] { LikeEverything(text[1..]); }
  }

  /** Some stretch of the text equals p. */
  predicate Contains(text: string, p: string) { exists i | 0 <= i <= |text| :: p <= text[i..] }

  lemma {:induction false} LikeSubstring(text: string, p: string)
    requires Plain(p)
    ensures Like(text, "%" + p + "%") <==> Contains(text, p)
  {
    var pattern := "%" + p + "%";
    assert pattern[1..] == p + "%";
    LikePrefix(text, p);
    assert text[0..] == text;
    if text != [] {
      LikeSubstring(text[1..], p);
      if Contains(text, p) && !(p <= text) {
        var i :| 0 <= i <= |text| && p <= text[i..];
        assert text[1..][i - 1..] == text[i..];
      }
      if Contains(text[1..], p) {
        var i :| 0 <= i <= |text[1..]| && p <= text[1..][i..];
        assert text[i + 1..] == text[1..][i..];
      }
    }
  }

  /** A text the pattern p% matches literally: wildcards and escapes taken at their word. */
  function Literal(p: string): string {
    if p == "" then ""
    else if p[0] == '%' then Literal(p[1..])
    else if p[0] == '_' then "a" + Literal(p[1..])
    else if p[0] == '\\' then if |p| == 1 then "%" else [p[1]] + Literal(p[2..])
    else [p[0]] + Literal(p[1..])
  }

  lemma {:induction false} LiteralMatches(p: string)
    ensures Like(Literal(p), p + "%")
  {
    if p == "" {
      assert p + "%" == "%";
    } else if p[0] == '\\' {
      if |p| == 1 {
        assert p + "%" == "\\%" && "\\%"[2..] == "" && "%"[1..] == "";
        assert Like("", "");
      } else {
        assert (p + "%")[2..] == p[2..] + "%" && ([p[1]] + Literal(p[2..]))[1..] == Literal(p[2..]);
        LiteralMatches(p[2..]);
      }
    } else {
      assert (p + "%")[1..] == p[1..] + "%";
      LiteralMatches(p[1..]);
      if p[0] == '_' { assert ("a" + Literal(p[1..]))[1..] == Literal(p[1..]); }
      else if p[0] != '%' { assert ([p[0]] + Literal(p[1..]))[1..] == Literal(p[1..]); }
    }
  }

  lemma {:induction false} LiteralDiffers(p: string)
    ensures |Literal(p)| <= |p| && (Literal(p) == p ==> Plain(p))
  {
    if p != "" {
      LiteralDiffers(p[1..]);
      if |p| > 1 { LiteralDiffers(p[2..]); }
      if Literal(p) == p {
        assert p[0] != '%' && p[0] != '_' && p[0] != '\\';
        assert p == [p[0]] + p[1..];
        assert Literal(p)[1..] == Literal(p[1..]);
      }
    }
  }

  /** A LIKE between two % is a substring search exactly when the searched text has no %, _ or backslash. */
  lemma SubstringSearchIffPlain(p: string)
    ensures (forall text :: Like(text, "%" + p + "%") <==> Contains(text, p)) <==> Plain(p)
  {
    if Plain(p) {
      forall text ensures Like(text, "%" + p + "%") <==> Contains(text, p) { LikeSubstring(text, p); }
    } else {
      var text := Literal(p);
      LiteralMatches(p);
      LiteralDiffers(p);
      assert ("%" + p + "%")[1..] == p + "%";
      assert Like(text, "%" + p + "%");
      ContainsLonger(text, p);
    }
  }

  lemma ContainsLonger(text: string, p: string)
    requires |text| <= |p|
    ensures Contains(text, p) ==> text == p
  {
    if Contains(text, p) {
      var i :| 0 <= i <= |text| && p <= text[i..];
      assert text[i..] == p;
    }
  }

  lemma {:induction false} LikePrefix(text: string, p: string)
    requires Plain(p)
    ensures Like(text, p + "%") <==> p <= text
  {
    if p == [] {
      LikeEverything(text);
      assert p + "%" == "%";
    } else {
      assert (p + "%")[1..] == p[1..] + "%";
      if text != [] {
        LikePrefix(text[1..], p[1..]);
        assert text == [text[0]] + text[1..] && p == [p[0]] + p[1..];
      }
    }
  }

  /** A truth value as a count. */
  function One(b: bool): nat { if b then 1 else 0 }

  // ----- Joining -----

  function Join(parts: seq<string>, sep: string): string {
    if parts == [] then ""
    else if |parts| == 1 then parts[0]
    else parts[0] + sep + Join(parts[1..], sep)
  }

  /** Texts that do not contain the mark end at its first occurrence. */
  lemma FirstMark(mark: char, a: string, x: string, b: string, y: string)
    requires mark !in a && mark !in b && a + ([mark] + x) == b + ([mark] + y)
    ensures a == b && x == y
  {
    var s, t := a + ([mark] + x), b + ([mark] + y);
    assert s[|a|] == mark && t[|b|] == mark;
    assert forall i | 0 <= i < |a| :: s[i] == a[i] && a[i] in a;
    assert forall i | 0 <= i < |b| :: t[i] == b[i] && b[i] in b;
    assert |a| == |b|;
    assert a == s[..|a|] == t[..|b|] == b;
    assert s[|a| + 1..] == x && t[|b| + 1..] == y;
  }
}
