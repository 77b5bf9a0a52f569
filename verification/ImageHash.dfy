/** The 64-bit difference hash and its distance: lib/imageHash.js:45-69, 90-98. */
module ImageHash {
  import opened Text

  const HASH_W := 9
  const HASH_H := 8

  // ----- Hexadecimal digits as JavaScript reads and prints them -----

  /** parseInt(c, 16) under a bitwise operator: a character that is no hex digit counts as 0. */
  function HexVal(c: char): (v: nat)
    ensures v < 16
  {
    if '0' <= c <= '9' then (c - '0') as nat
    else if 'a' <= c <= 'f' then 10 + (c - 'a') as nat
    else if 'A' <= c <= 'F' then 10 + (c - 'A') as nat
    else 0
  }

  /** The sixteen digits in both cases, and 0 for anything else. */
  lemma HexValIs(c: char)
    ensures (forall i | 0 <= i < 16 :: HexVal("0123456789abcdef"[i]) == i) && forall i | 0 <= i < 6 :: HexVal("ABCDEF"[i]) == 10 + i
    ensures c !in "0123456789abcdefABCDEF" ==> HexVal(c) == 0
  {
    if '0' <= c <= '9' { assert "0123456789abcdefABCDEF"[c as int - '0' as int] == c; }
    else if 'a' <= c <= 'f' { assert "0123456789abcdefABCDEF"[c as int - 'a' as int + 10] == c; }
    else if 'A' <= c <= 'F' { assert "0123456789abcdefABCDEF"[c as int - 'A' as int + 16] == c; }
  }

  /** (v).toString(16). */
  function HexChar(v: nat): (c: char)
    requires v < 16
    ensures HexVal(c) == v && IsHexDigit(c)
  { if v < 10 then '0' + v as char else 'a' + (v - 10) as char }

  /** A digit as computeDHash prints it. */
  predicate IsHexDigit(c: char) { '0' <= c <= '9' || 'a' <= c <= 'f' }

  predicate Canonical(s: string) { forall i | 0 <= i < |s| :: IsHexDigit(s[i]) }

  // ----- Bits -----

  /** Bit j of v, the lowest being bit 0. */
  predicate Bit(v: nat, j: nat) { if j == 0 then v % 2 == 1 else Bit(v / 2, j - 1) }

  /** Bit k of a hash, reading its digits from the left and each from its highest bit. */
  predicate BitAt(s: string, k: nat)
    requires k < 4 * |s|
  { Bit(HexVal(s[k / 4]), 3 - k % 4) }

  /** x ^ y on non-negative numbers. */
  function Xor(x: nat, y: nat): nat
    decreases x + y
  { if x == 0 && y == 0 then 0 else LowDiffers(x, y) + 2 * Xor(x / 2, y / 2) }

  /** Whether the lowest bits differ. */
  function LowDiffers(x: nat, y: nat): nat { if x % 2 == y % 2 then 0 else 1 }

  function Ones(x: nat): nat { if x == 0 then 0 else x % 2 + Ones(x / 2) }

  /** How many of the lowest w bits of x and y differ. */
  function DifferingBits(x: nat, y: nat, w: nat): nat {
    if w == 0 then 0 else LowDiffers(x, y) + DifferingBits(x / 2, y / 2, w - 1)
  }

  /** How many bits of the first n digits differ. */
  function Differing(a: string, b: string, n: nat): nat
    requires n <= |a| && |a| == |b|
  { if n == 0 then 0 else Differing(a, b, n - 1) + DifferingBits(HexVal(a[n - 1]), HexVal(b[n - 1]), 4) }

  // ----- Packing the comparisons -----

  predicate Brighter(data: seq<nat>, k: nat)
    requires |data| == HASH_W * HASH_H && k < 64
  { data[9 * (k / 8) + k % 8] < data[9 * (k / 8) + k % 8 + 1] }

  predicate BitsSoFar(data: seq<nat>, bits: string)
    requires |data| == HASH_W * HASH_H && |bits| <= 64
  { forall k | 0 <= k < |bits| :: bits[k] == if Brighter(data, k) then '1' else '0' }

  function BitValue(c: char): nat { if c == '1' then 1 else 0 }

  /** parseInt(four binary digits, 2). */
  function Nibble(bits: string): (v: nat)
    requires |bits| == 4
    ensures v < 16
  { 8 * BitValue(bits[0]) + 4 * BitValue(bits[1]) + 2 * BitValue(bits[2]) + BitValue(bits[3]) }

  lemma NibbleBits(bits: string)
    requires |bits| == 4
    ensures forall j | 0 <= j < 4 :: Bit(Nibble(bits), 3 - j) <==> bits[j] == '1'
  {
    var v := Nibble(bits);
    assert v % 2 == BitValue(bits[3]);
    assert v / 2 == 4 * BitValue(bits[0]) + 2 * BitValue(bits[1]) + BitValue(bits[2]);
    assert v / 2 / 2 == 2 * BitValue(bits[0]) + BitValue(bits[1]);
    assert v / 2 / 2 / 2 == BitValue(bits[0]);
    assert Bit(v, 0) <==> v % 2 == 1;
    assert Bit(v, 1) <==> Bit(v / 2, 0);
    assert Bit(v, 2) <==> Bit(v / 2, 1);
    assert Bit(v / 2, 1) <==> Bit(v / 2 / 2, 0);
    assert Bit(v, 3) <==> Bit(v / 2, 2);
    assert Bit(v / 2, 2) <==> Bit(v / 2 / 2, 1);
    assert Bit(v / 2 / 2, 1) <==> Bit(v / 2 / 2 / 2, 0);
  }

  method CompareNeighbours(data: seq<nat>) returns (bits: string)
    requires |data| == HASH_W * HASH_H
    ensures |bits| == 64 && BitsSoFar(data, bits)
  {
    bits := "";
    for y := 0 to HASH_H
      invariant |bits| == 8 * y && BitsSoFar(data, bits)
    {
      for x := 0 to HASH_W - 1
        invariant |bits| == 8 * y + x && BitsSoFar(data, bits)
      {
        var i := y * HASH_W + x;
        assert (8 * y + x) / 8 == y && (8 * y + x) % 8 == x;
        bits := bits + (if data[i] < data[i + 1] then "1" else "0");
      }
    }
  }

  /** The digits packed so far carry the first bits. */
  predicate PackedSoFar(bits: string, hex: string)
    requires 4 * |hex| <= |bits|
  { Canonical(hex) && forall k | 0 <= k < 4 * |hex| :: BitAt(hex, k) <==> bits[k] == '1' }

  lemma PackOne(bits: string, hex: string, v: nat)
    requires 4 * |hex| + 4 <= |bits| && PackedSoFar(bits, hex)
    requires v == Nibble(bits[4 * |hex|..4 * |hex| + 4])
    ensures PackedSoFar(bits, hex + [HexChar(v)])
  {
    var n, more := |hex|, hex + [HexChar(v)];
    var four := bits[4 * n..4 * n + 4];
    NibbleBits(four);
    forall k | 0 <= k < 4 * |more| ensures BitAt(more, k) <==> bits[k] == '1' {
      if k < 4 * n {
        assert more[k / 4] == hex[k / 4];
        assert BitAt(more, k) <==> BitAt(hex, k);
      } else {
        var j := k - 4 * n;
        assert k / 4 == n && k % 4 == j && more[n] == HexChar(v);
        assert four[j] == bits[k];
      }
    }
  }

  /** Digit h of row r packs four comparisons of neighbours, the leftmost highest, as a lower-case hex digit. */
  predicate PacksRow(data: seq<nat>, hex: string, r: nat, h: nat)
    requires |data| == 72 && |hex| == 16 && r < 8 && h < 2
  {
    var i := 9 * r + 4 * h;
    hex[2 * r + h] == "0123456789abcdef"[8 * One(data[i] < data[i + 1]) + 4 * One(data[i + 1] < data[i + 2])
                                         + 2 * One(data[i + 2] < data[i + 3]) + One(data[i + 3] < data[i + 4])]
  }

  lemma DigitOfBits(c: char)
    requires IsHexDigit(c)
    ensures var v := HexVal(c);
            v == 8 * One(Bit(v, 3)) + 4 * One(Bit(v, 2)) + 2 * One(Bit(v, 1)) + One(Bit(v, 0)) && c == "0123456789abcdef"[v]
  { FourDigits(HexVal(c)); }

  lemma HashDigits(data: seq<nat>, hex: string, r: nat, h: nat)
    requires |data| == HASH_W * HASH_H && |hex| == 16 && Canonical(hex) && r < 8 && h < 2
    requires forall k | 0 <= k < 64 :: BitAt(hex, k) <==> Brighter(data, k)
    ensures PacksRow(data, hex, r, h)
  {
    var d := 2 * r + h;
    DigitOfBits(hex[d]);
    HashBit(data, hex, r, h, 0);
    HashBit(data, hex, r, h, 1);
    HashBit(data, hex, r, h, 2);
    HashBit(data, hex, r, h, 3);
  }

  lemma HashBit(data: seq<nat>, hex: string, r: nat, h: nat, j: nat)
    requires |data| == HASH_W * HASH_H && |hex| == 16 && r < 8 && h < 2 && j < 4
    requires forall k | 0 <= k < 64 :: BitAt(hex, k) <==> Brighter(data, k)
    ensures Bit(HexVal(hex[2 * r + h]), 3 - j) <==> data[9 * r + 4 * h + j] < data[9 * r + 4 * h + j + 1]
  {
    var k := 4 * (2 * r + h) + j;
    DigitBit(hex, 2 * r + h, j);
    assert k / 8 == r && k % 8 == 4 * h + j;
    assert BitAt(hex, k) <==> Brighter(data, k);
  }

  /** Sixteen hex digits whose bits are the 64 left-right comparisons, row by row. */
  method ComputeDHash(data: seq<nat>) returns (hex: string)
    requires |data| == HASH_W * HASH_H
    ensures |hex| == 16 && Canonical(hex)
    ensures forall k | 0 <= k < 64 :: BitAt(hex, k) <==> Brighter(data, k)
    ensures forall r: nat, h: nat | r < 8 && h < 2 :: PacksRow(data, hex, r, h)
  {
    var bits := CompareNeighbours(data);
    hex := "";
    var i := 0;
    while i < |bits|
      invariant i <= 64 && i == 4 * |hex| && PackedSoFar(bits, hex)
      decreases 64 - i
    {
      var v := Nibble(bits[i..i + 4]);
      PackOne(bits, hex, v);
      hex := hex + [HexChar(v)];
      i := i + 4;
    }
    forall k | 0 <= k < 64 ensures BitAt(hex, k) <==> Brighter(data, k) { assert BitAt(hex, k) <==> bits[k] == '1'; }
    forall r: nat, h: nat | r < 8 && h < 2 ensures PacksRow(data, hex, r, h) { HashDigits(data, hex, r, h); }
  }

  // ----- Distance -----

  datatype Distance = Infinity | Finite(bits: nat)

  predicate CloserOrEqual(d: Distance, limit: nat) { d.Finite? && d.bits <= limit }

  function DistanceOf(a: string, b: string): Distance {
    if a == "" || b == "" || |a| != |b| then Infinity else Finite(Differing(a, b, |a|))
  }

  /** Bits of the exclusive or are the differing bits. */
  lemma {:induction false} XorOnes(x: nat, y: nat, w: nat)
    requires x < Width(w) && y < Width(w)
    ensures Ones(Xor(x, y)) == DifferingBits(x, y, w)
  {
    if w == 0 {
      assert x == 0 && y == 0;
    } else {
      XorOnes(x / 2, y / 2, w - 1);
      assert Xor(0, 0) == 0;
      OnesNext(LowDiffers(x, y), Xor(x / 2, y / 2));
    }
  }

  lemma OnesNext(d: nat, h: nat)
    requires d < 2
    ensures Ones(d + 2 * h) == d + Ones(h)
  {
    assert (d + 2 * h) % 2 == d && (d + 2 * h) / 2 == h;
  }

  function Width(w: nat): nat { if w == 0 then 1 else 2 * Width(w - 1) }

  lemma SixteenValues()
    ensures Width(4) == 16
  {
    assert Width(1) == 2;
    assert Width(2) == 4;
    assert Width(3) == 8;
  }

  /** hammingDistanceHex: the number of differing bits, Infinity for an empty or a longer partner. */
  method HammingDistanceHex(a: string, b: string) returns (d: Distance)
    ensures d == DistanceOf(a, b)
  {
    if a == "" || b == "" || |a| != |b| { return Infinity; }
    var dist := 0;
    for i := 0 to |a|
      invariant dist == Differing(a, b, i)
    {
      var x := Xor(HexVal(a[i]), HexVal(b[i]));
      ghost var all := x;
      while x != 0
        invariant dist + Ones(x) == Differing(a, b, i) + Ones(all)
      {
        dist := dist + x % 2;
        x := x / 2;
      }
      SixteenValues();
      XorOnes(HexVal(a[i]), HexVal(b[i]), 4);
    }
    d := Finite(dist);
  }

  // ----- A metric on hashes -----

  lemma {:induction false} DifferingSymmetric(a: string, b: string, n: nat)
    requires n <= |a| && |a| == |b|
    ensures Differing(a, b, n) == Differing(b, a, n)
  {
    if n > 0 {
      DifferingSymmetric(a, b, n - 1);
      BitsSymmetric(HexVal(a[n - 1]), HexVal(b[n - 1]), 4);
    }
  }

  lemma {:induction false} BitsSymmetric(x: nat, y: nat, w: nat)
    ensures DifferingBits(x, y, w) == DifferingBits(y, x, w)
  { if w > 0 { BitsSymmetric(x / 2, y / 2, w - 1); } }

  lemma {:induction false} BitsTriangle(x: nat, y: nat, z: nat, w: nat)
    ensures DifferingBits(x, z, w) <= DifferingBits(x, y, w) + DifferingBits(y, z, w)
  { if w > 0 { BitsTriangle(x / 2, y / 2, z / 2, w - 1); } }

  lemma {:induction false} BitsSame(x: nat, y: nat, w: nat)
    requires x < Width(w) && y < Width(w)
    ensures DifferingBits(x, y, w) == 0 <==> x == y
    ensures DifferingBits(x, y, w) <= w
  { if w > 0 { BitsSame(x / 2, y / 2, w - 1); } }

  lemma {:induction false} DifferingTriangle(a: string, b: string, c: string, n: nat)
    requires n <= |a| && |a| == |b| == |c|
    ensures Differing(a, c, n) <= Differing(a, b, n) + Differing(b, c, n)
  {
    if n > 0 {
      DifferingTriangle(a, b, c, n - 1);
      BitsTriangle(HexVal(a[n - 1]), HexVal(b[n - 1]), HexVal(c[n - 1]), 4);
    }
  }

  lemma {:induction false} NoneDiffering(a: string, b: string, n: nat)
    requires n <= |a| && |a| == |b|
    ensures Differing(a, b, n) == 0 <==> forall i | 0 <= i < n :: HexVal(a[i]) == HexVal(b[i])
    ensures Differing(a, b, n) <= 4 * n
  {
    if n > 0 {
      NoneDiffering(a, b, n - 1);
      SixteenValues();
      BitsSame(HexVal(a[n - 1]), HexVal(b[n - 1]), 4);
    }
  }

  /** On hashes of one length the distance is a metric, at most four per digit. */
  lemma DistanceIsMetric(a: string, b: string, c: string)
    requires a != "" && |a| == |b| == |c| && Canonical(a) && Canonical(b)
    ensures DistanceOf(a, b).Finite? && DistanceOf(a, b).bits <= 4 * |a|
    ensures DistanceOf(a, b).bits == 0 <==> a == b
    ensures DistanceOf(a, b) == DistanceOf(b, a)
    ensures DistanceOf(a, c).bits <= DistanceOf(a, b).bits + DistanceOf(b, c).bits
  {
    NoneDiffering(a, b, |a|);
    if DistanceOf(a, b).bits == 0 {
      forall i | 0 <= i < |a| ensures a[i] == b[i] { assert HexVal(a[i]) == HexVal(b[i]); }
    }
    DifferingSymmetric(a, b, |a|);
    DifferingTriangle(a, b, c, |a|);
  }

  // ----- The distance of two pictures -----

  function CountTrue(p: nat -> bool, n: nat): nat { if n == 0 then 0 else CountTrue(p, n - 1) + One(p(n - 1)) }

  lemma FourMore(p: nat -> bool, m: nat)
    ensures CountTrue(p, m + 4) == CountTrue(p, m) + One(p(m)) + One(p(m + 1)) + One(p(m + 2)) + One(p(m + 3))
  {
    assert CountTrue(p, m + 4) == CountTrue(p, m + 3) + One(p(m + 3));
    assert CountTrue(p, m + 3) == CountTrue(p, m + 2) + One(p(m + 2));
    assert CountTrue(p, m + 2) == CountTrue(p, m + 1) + One(p(m + 1));
  }

  lemma DigitBit(s: string, i: nat, j: nat)
    requires i < |s| && j < 4
    ensures BitAt(s, 4 * i + j) == Bit(HexVal(s[i]), 3 - j)
  { assert (4 * i + j) / 4 == i && (4 * i + j) % 4 == j; }

  lemma FourDigits(x: nat)
    ensures Bit(x, 0) <==> x % 2 == 1
    ensures Bit(x, 1) <==> x / 2 % 2 == 1
    ensures Bit(x, 2) <==> x / 2 / 2 % 2 == 1
    ensures Bit(x, 3) <==> x / 2 / 2 / 2 % 2 == 1
  {
    assert Bit(x, 2) <==> Bit(x / 2, 1);
    assert Bit(x, 3) <==> Bit(x / 2, 2);
    assert Bit(x / 2, 2) <==> Bit(x / 2 / 2, 1);
  }

  lemma FourBits(x: nat, y: nat)
    ensures DifferingBits(x, y, 4)
         == One(Bit(x, 3) != Bit(y, 3)) + One(Bit(x, 2) != Bit(y, 2)) + One(Bit(x, 1) != Bit(y, 1)) + One(Bit(x, 0) != Bit(y, 0))
  {
    FourDigits(x);
    FourDigits(y);
    assert DifferingBits(x, y, 4) == LowDiffers(x, y) + DifferingBits(x / 2, y / 2, 3);
    assert DifferingBits(x / 2, y / 2, 3) == LowDiffers(x / 2, y / 2) + DifferingBits(x / 2 / 2, y / 2 / 2, 2);
    assert DifferingBits(x / 2 / 2, y / 2 / 2, 2) == LowDiffers(x / 2 / 2, y / 2 / 2) + DifferingBits(x / 2 / 2 / 2, y / 2 / 2 / 2, 1);
    assert DifferingBits(x / 2 / 2 / 2, y / 2 / 2 / 2, 1) == LowDiffers(x / 2 / 2 / 2, y / 2 / 2 / 2) + 0;
  }

  predicate BitsPart(a: string, b: string, k: nat)
    requires |a| == |b|
  { k < 4 * |a| && BitAt(a, k) != BitAt(b, k) }

  lemma BitsPartAt(a: string, b: string, i: nat, j: nat)
    requires |a| == |b| && i < |a| && j < 4
    ensures BitsPart(a, b, 4 * i + j) <==> Bit(HexVal(a[i]), 3 - j) != Bit(HexVal(b[i]), 3 - j)
  {
    DigitBit(a, i, j);
    DigitBit(b, i, j);
  }

  /** p marks the bits on which the hashes differ. */
  ghost predicate Marks(p: nat -> bool, a: string, b: string)
    requires |a| == |b|
  { forall k | 0 <= k < 4 * |a| :: p(k) == BitsPart(a, b, k) }

  lemma MarkAt(a: string, b: string, p: nat -> bool, i: nat, k: nat, j: nat, x: nat, y: nat)
    requires |a| == |b| && i < |a| && Marks(p, a, b) && j < 4 && k == 4 * i + (3 - j)
    requires x == HexVal(a[i]) && y == HexVal(b[i])
    ensures p(k) <==> Bit(x, j) != Bit(y, j)
  {
    BitsPartAt(a, b, i, 3 - j);
    assert p(k) == BitsPart(a, b, k);
  }

  lemma CountDigit(p: nat -> bool, m: nat, x: nat, y: nat)
    requires (p(m) <==> Bit(x, 3) != Bit(y, 3)) && (p(m + 1) <==> Bit(x, 2) != Bit(y, 2))
    requires (p(m + 2) <==> Bit(x, 1) != Bit(y, 1)) && (p(m + 3) <==> Bit(x, 0) != Bit(y, 0))
    ensures CountTrue(p, m + 4) == CountTrue(p, m) + DifferingBits(x, y, 4)
  {
    FourMore(p, m);
    FourBits(x, y);
  }

  lemma CountAt(a: string, b: string, p: nat -> bool, i: nat, m: nat, x: nat, y: nat)
    requires |a| == |b| && i < |a| && Marks(p, a, b) && m == 4 * i
    requires x == HexVal(a[i]) && y == HexVal(b[i])
    ensures CountTrue(p, m + 4) == CountTrue(p, m) + DifferingBits(x, y, 4)
  {
    MarkAt(a, b, p, i, m, 3, x, y);
    MarkAt(a, b, p, i, m + 1, 2, x, y);
    MarkAt(a, b, p, i, m + 2, 1, x, y);
    MarkAt(a, b, p, i, m + 3, 0, x, y);
    CountDigit(p, m, x, y);
  }

  lemma Joined(before: nat, digit: nat, p: nat -> bool, m: nat, n: nat)
    requires before == CountTrue(p, m) && CountTrue(p, m + 4) == CountTrue(p, m) + digit && n == m + 4
    ensures CountTrue(p, n) == before + digit
  {}

  lemma {:induction false} DifferingCounts(a: string, b: string, p: nat -> bool, n: nat)
    requires |a| == |b| && n <= |a| && Marks(p, a, b)
    ensures Differing(a, b, n) == CountTrue(p, 4 * n)
  {
    if n > 0 {
      var x, y := HexVal(a[n - 1]), HexVal(b[n - 1]);
      var m: nat := 4 * (n - 1);
      DifferingCounts(a, b, p, n - 1);
      CountAt(a, b, p, n - 1, m, x, y);
      Joined(Differing(a, b, n - 1), DifferingBits(x, y, 4), p, m, 4 * n);
    }
  }

  function Disagreement(d: seq<nat>, e: seq<nat>): nat -> bool
    requires |d| == |e| == HASH_W * HASH_H
  { (k: nat) => k < 64 && Brighter(d, k) != Brighter(e, k) }

  /** The distance of two difference hashes counts the neighbour comparisons on which the pictures disagree. */
  lemma DistanceOfPictures(d: seq<nat>, e: seq<nat>, a: string, b: string)
    requires |d| == |e| == HASH_W * HASH_H && |a| == |b| == 16
    requires forall k | 0 <= k < 64 :: (BitAt(a, k) <==> Brighter(d, k)) && (BitAt(b, k) <==> Brighter(e, k))
    ensures DistanceOf(a, b) == Finite(CountTrue(Disagreement(d, e), 64))
  {
    DifferingCounts(a, b, Disagreement(d, e), 16);
  }
}
