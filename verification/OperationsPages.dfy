/** Identity, pages and tab counts of the union (lib/inventoryOperations.js:712-714, 748-760). */
module OperationsPages {
  import opened Text
  import opened OperationsQuery
  import opened OperationsMeaning

  // ----- The composite id -----

  predicate DistinctIds(rows: seq<Out>) { forall i, j | 0 <= i < j < |rows| :: rows[i].id != rows[j].id }

  /** A primary key column: never NULL, no value twice. */
  predicate KeyColumn(pk: string, rows: seq<Record>) {
    && (forall i | 0 <= i < |rows| :: At(rows[i], pk).Txt?)
    && forall i, j | 0 <= i < j < |rows| :: At(rows[i], pk) != At(rows[j], pk)
  }

  predicate DistinctTypes(sources: seq<Source>) {
    && (forall i | 0 <= i < |sources| :: ':' !in sources[i].documentType)
    && forall i, j | 0 <= i < j < |sources| :: sources[i].documentType != sources[j].documentType
  }

  function IdOf(s: Source, r: Record): string { s.documentType + ([':'] + TextOf(At(r, s.pk))) }

  /** Every row of a branch is the projection of a table row. */
  lemma {:induction false} KeptFrom(s: Source, o: Opts, rows: seq<Record>, k: nat)
    requires k < |Kept(s, o, rows)|
    ensures exists i | 0 <= i < |rows| :: Kept(s, o, rows)[k] == Shown(s, rows[i])
  {
    var init := rows[..|rows| - 1];
    if k < |Kept(s, o, init)| {
      KeptFrom(s, o, init, k);
      var i :| 0 <= i < |init| && Kept(s, o, init)[k] == Shown(s, init[i]);
      assert rows[i] == init[i];
    } else {
      assert Kept(s, o, rows)[k] == Shown(s, rows[|rows| - 1]);
    }
  }

  lemma {:induction false} KeptDistinct(s: Source, o: Opts, rows: seq<Record>)
    requires KeyColumn(s.pk, rows)
    ensures DistinctIds(Kept(s, o, rows))
  {
    if rows != [] {
      var init, r := rows[..|rows| - 1], rows[|rows| - 1];
      KeptDistinct(s, o, init);
      var head := Kept(s, o, init);
      forall k | 0 <= k < |head| ensures head[k].id != IdOf(s, r) {
        KeptFrom(s, o, init, k);
        var i :| 0 <= i < |init| && head[k] == Shown(s, init[i]);
        assert At(init[i], s.pk) == At(rows[i], s.pk) != At(r, s.pk);
        SuffixDiffers(s.documentType, TextOf(At(init[i], s.pk)), TextOf(At(r, s.pk)));
      }
    }
  }

  lemma SuffixDiffers(t: string, x: string, y: string)
    requires x != y
    ensures t + (":" + x) != t + (":" + y)
  {
    assert (t + (":" + x))[|t| + 1..] == x;
    assert (t + (":" + y))[|t| + 1..] == y;
  }

  lemma {:induction false} DirectFrom(sources: seq<Source>, o: Opts, db: map<string, seq<Record>>, k: nat)
    requires k < |Direct(sources, o, db)|
    ensures exists n, r :: 0 <= n < |sources| && Direct(sources, o, db)[k] == Shown(sources[n], r)
  {
    var init, s := sources[..|sources| - 1], sources[|sources| - 1];
    var head := Direct(init, o, db);
    if k < |head| {
      DirectFrom(init, o, db, k);
      var n, r :| 0 <= n < |init| && head[k] == Shown(init[n], r);
      assert sources[n] == init[n];
    } else {
      var rows := Rows(db, s);
      KeptFrom(s, o, rows, k - |head|);
      var i :| 0 <= i < |rows| && Kept(s, o, rows)[k - |head|] == Shown(s, rows[i]);
      assert Direct(sources, o, db)[k] == Shown(sources[|sources| - 1], rows[i]);
    }
  }

  lemma TypesTellApart(s: Source, u: Source, x: Record, y: Record)
    requires ':' !in s.documentType && ':' !in u.documentType && s.documentType != u.documentType
    ensures Shown(s, x).id != Shown(u, y).id
  {
    if Shown(s, x).id == Shown(u, y).id {
      FirstMark(':', s.documentType, TextOf(At(x, s.pk)), u.documentType, TextOf(At(y, u.pk)));
    }
  }

  /** No two rows of the union share an id, though nothing keeps ids apart across tables. */
  lemma {:induction false} UnionIdsDistinct(sources: seq<Source>, o: Opts, db: map<string, seq<Record>>)
    requires DistinctTypes(sources) && forall s | s in sources :: KeyColumn(s.pk, Rows(db, s))
    ensures DistinctIds(Direct(sources, o, db))
  {
    if sources != [] {
      var init, s := sources[..|sources| - 1], sources[|sources| - 1];
      assert s in sources && forall x | x in init :: x in sources;
      UnionIdsDistinct(init, o, db);
      KeptDistinct(s, o, Rows(db, s));
      var head, tail := Direct(init, o, db), Kept(s, o, Rows(db, s));
      forall i, j | 0 <= i < |head| && 0 <= j < |tail| ensures head[i].id != tail[j].id {
        DirectFrom(init, o, db, i);
        var n, r :| 0 <= n < |init| && head[i] == Shown(init[n], r);
        KeptFrom(s, o, Rows(db, s), j);
        var m :| 0 <= m < |Rows(db, s)| && tail[j] == Shown(s, Rows(db, s)[m]);
        assert init[n] == sources[n];
        TypesTellApart(init[n], s, r, Rows(db, s)[m]);
      }
    }
  }

  // ----- Tab counts -----

  function CountOf(outs: seq<Out>, t: string): nat {
    if outs == [] then 0 else CountOf(outs[..|outs| - 1], t) + (if outs[|outs| - 1].documentType == t then 1 else 0)
  }

  lemma {:induction false} CountConcat(a: seq<Out>, b: seq<Out>, t: string)
    ensures CountOf(a + b, t) == CountOf(a, t) + CountOf(b, t)
  {
    if b == [] {
      assert a + b == a;
    } else {
      assert (a + b)[..|a + b| - 1] == a + b[..|b| - 1];
      CountConcat(a, b[..|b| - 1], t);
    }
  }

  lemma {:induction false} CountKept(s: Source, o: Opts, rows: seq<Record>, t: string)
    ensures CountOf(Kept(s, o, rows), t) == if s.documentType == t then |Kept(s, o, rows)| else 0
  {
    if rows != [] {
      var init, r := rows[..|rows| - 1], rows[|rows| - 1];
      CountKept(s, o, init, t);
      CountConcat(Kept(s, o, init), if Wanted(s, o, r) then [Shown(s, r)] else [], t);
      assert [Shown(s, r)][..0] == [];
    }
  }

  lemma {:induction false} KeptIgnoresTypes(s: Source, o: Opts, rows: seq<Record>)
    ensures Kept(s, o, rows) == Kept(s, o.(types := []), rows)
  { if rows != [] { KeptIgnoresTypes(s, o, rows[..|rows| - 1]); } }

  /** The tab counts, taken without the type filter, are the counts with it for every requested type. */
  lemma {:induction false} TabCounts(sources: seq<Source>, o: Opts, db: map<string, seq<Record>>, t: string)
    ensures CountOf(Direct(sources, o, db), t)
         == if o.types == [] || t in o.types then CountOf(Direct(sources, o.(types := []), db), t) else 0
  {
    if sources != [] {
      var init, s := sources[..|sources| - 1], sources[|sources| - 1];
      var rows, all := Rows(db, s), o.(types := []);
      TabCounts(init, o, db, t);
      KeptIgnoresTypes(s, o, rows);
      CountKept(s, o, rows, t);
      CountConcat(Direct(init, o, db), if Visible(s, o) then Kept(s, o, rows) else [], t);
      CountConcat(Direct(init, all, db), if Visible(s, all) then Kept(s, all, rows) else [], t);
    }
  }

  function SumCounts(sources: seq<Source>, outs: seq<Out>): nat {
    if sources == [] then 0
    else SumCounts(sources[..|sources| - 1], outs) + CountOf(outs, sources[|sources| - 1].documentType)
  }

  lemma {:induction false} SumCountsConcat(sources: seq<Source>, a: seq<Out>, b: seq<Out>)
    ensures SumCounts(sources, a + b) == SumCounts(sources, a) + SumCounts(sources, b)
  {
    if sources != [] {
      SumCountsConcat(sources[..|sources| - 1], a, b);
      CountConcat(a, b, sources[|sources| - 1].documentType);
    }
  }

  /** A branch's rows are counted under its own type only. */
  lemma {:induction false} SumCountsKept(sources: seq<Source>, s: Source, o: Opts, rows: seq<Record>)
    requires DistinctTypes(sources)
    ensures SumCounts(sources, Kept(s, o, rows))
         == if exists i | 0 <= i < |sources| :: sources[i].documentType == s.documentType then |Kept(s, o, rows)| else 0
  {
    if sources != [] {
      var init, last := sources[..|sources| - 1], sources[|sources| - 1];
      assert forall i | 0 <= i < |init| :: init[i] == sources[i];
      SumCountsKept(init, s, o, rows);
      CountKept(s, o, rows, last.documentType);
      if last.documentType == s.documentType { assert sources[|sources| - 1].documentType == s.documentType; }
      if exists i | 0 <= i < |init| :: init[i].documentType == s.documentType {
        var i :| 0 <= i < |init| && init[i].documentType == s.documentType;
        assert sources[i].documentType == s.documentType;
      }
    }
  }

  lemma {:induction false} SumCountsDirect(sources: seq<Source>, n: nat, o: Opts, db: map<string, seq<Record>>)
    requires DistinctTypes(sources) && n <= |sources|
    ensures SumCounts(sources, Direct(sources[..n], o, db)) == |Direct(sources[..n], o, db)|
  {
    if n == 0 {
      NoCounts(sources);
    } else {
      var s, rows := sources[n - 1], Rows(db, sources[n - 1]);
      SumCountsDirect(sources, n - 1, o, db);
      assert sources[..n][..n - 1] == sources[..n - 1] && sources[n - 1].documentType == s.documentType;
      SumCountsKept(sources, s, o, rows);
      NoCounts(sources);
      SumCountsConcat(sources, Direct(sources[..n - 1], o, db), if Visible(s, o) then Kept(s, o, rows) else []);
    }
  }

  lemma {:induction false} NoCounts(sources: seq<Source>)
    ensures SumCounts(sources, []) == 0
  { if sources != [] { NoCounts(sources[..|sources| - 1]); } }

  /** The per-type counts sum to the total. */
  lemma CountsSumToTotal(sources: seq<Source>, o: Opts, db: map<string, seq<Record>>)
    requires DistinctTypes(sources)
    ensures SumCounts(sources, Direct(sources, o, db)) == |Direct(sources, o, db)|
  {
    SumCountsDirect(sources, |sources|, o, db);
    assert sources[..|sources|] == sources;
  }

  // ----- Pages -----

  /** A value of the sort column. */
  datatype Key = NullKey | NumKey(n: int) | TextKey(s: string)

  predicate KeyLe(a: Key, b: Key) {
    match (a, b)
    case (NullKey, _) => true
    case (NumKey(m), NumKey(n)) => m <= n
    case (NumKey(_), TextKey(_)) => true
    case (TextKey(s), TextKey(t)) => Le(s, t)
    case _ => false
  }

  /** ORDER BY column direction, id ASC. */
  predicate Ordered(key: Out -> Key, asc: bool, a: Out, b: Out) {
    if key(a) == key(b) then Le(a.id, b.id)
    else if asc then KeyLe(key(a), key(b))
    else KeyLe(key(b), key(a))
  }

  predicate Sorted(key: Out -> Key, asc: bool, rows: seq<Out>) {
    forall i, j | 0 <= i < j < |rows| :: Ordered(key, asc, rows[i], rows[j])
  }

  lemma KeyLeAntisymmetric(a: Key, b: Key)
    requires KeyLe(a, b) && KeyLe(b, a)
    ensures a == b
  { if a.TextKey? && b.TextKey? { LeAntisymmetric(a.s, b.s); } }

  lemma OrderedAntisymmetric(key: Out -> Key, asc: bool, a: Out, b: Out)
    requires Ordered(key, asc, a, b) && Ordered(key, asc, b, a)
    ensures a.id == b.id
  {
    if key(a) != key(b) {
      KeyLeAntisymmetric(key(a), key(b));
    }
    LeAntisymmetric(a.id, b.id);
  }

  /** What the database may answer: a slice of some sorted arrangement of the union. */
  ghost predicate IsPage(page: seq<Out>, union: seq<Out>, key: Out -> Key, asc: bool, limit: nat, offset: nat) {
    exists full :: Arranged(full, union, key, asc) && page == Slice(full, limit, offset)
  }

  ghost predicate Arranged(full: seq<Out>, union: seq<Out>, key: Out -> Key, asc: bool) {
    multiset(full) == multiset(union) && Sorted(key, asc, full)
  }

  function Slice(full: seq<Out>, limit: nat, offset: nat): seq<Out> {
    var from := if offset <= |full| then offset else |full|;
    var to := if offset + limit <= |full| then offset + limit else |full|;
    full[from..to]
  }

  lemma DistinctRows(rows: seq<Out>, a: Out, b: Out)
    requires DistinctIds(rows) && a in rows && b in rows && a.id == b.id
    ensures a == b
  {
    var i :| 0 <= i < |rows| && rows[i] == a;
    var j :| 0 <= j < |rows| && rows[j] == b;
    assert i == j;
  }

  lemma SameElements(p: seq<Out>, q: seq<Out>)
    requires multiset(p) == multiset(q)
    ensures |p| == |q| && forall x :: x in p <==> x in q
  {
    assert |p| == |multiset(p)| == |multiset(q)| == |q|;
    forall x ensures x in p <==> x in q { assert x in p <==> x in multiset(p); assert x in q <==> x in multiset(q); }
  }

  lemma FirstSame(key: Out -> Key, asc: bool, p: seq<Out>, q: seq<Out>)
    requires multiset(p) == multiset(q) && p != [] && DistinctIds(p) && Sorted(key, asc, p) && Sorted(key, asc, q)
    ensures q != [] && p[0] == q[0]
  {
    SameElements(p, q);
    assert p[0] in q && q[0] in p;
    var i :| 0 <= i < |q| && q[i] == p[0];
    var j :| 0 <= j < |p| && p[j] == q[0];
    LeTotal(p[0].id, p[0].id);
    LeTotal(q[0].id, q[0].id);
    assert Ordered(key, asc, q[0], q[i]) && Ordered(key, asc, p[0], p[j]);
    OrderedAntisymmetric(key, asc, p[0], q[0]);
    DistinctRows(p, p[0], q[0]);
  }

  /** With distinct ids the sorted arrangement is unique: the id breaks every tie. */
  lemma {:induction false} SortedUnique(key: Out -> Key, asc: bool, p: seq<Out>, q: seq<Out>)
    requires multiset(p) == multiset(q) && DistinctIds(p) && Sorted(key, asc, p) && Sorted(key, asc, q)
    ensures p == q
    decreases |p|
  {
    SameElements(p, q);
    if p != [] {
      FirstSame(key, asc, p, q);
      assert p == [p[0]] + p[1..] && q == [q[0]] + q[1..];
      assert multiset(p[1..]) == multiset(p) - multiset{p[0]};
      assert multiset(q[1..]) == multiset(q) - multiset{q[0]};
      SortedUnique(key, asc, p[1..], q[1..]);
    }
  }

  function Concat(pages: seq<seq<Out>>): seq<Out> {
    if pages == [] then [] else Concat(pages[..|pages| - 1]) + pages[|pages| - 1]
  }

  /** k * size, added up. */
  function Times(k: nat, size: nat): nat { if k == 0 then 0 else Times(k - 1, size) + size }

  lemma {:induction false} TimesIsProduct(k: nat, size: nat)
    ensures Times(k, size) == k * size
  {
    if k > 0 {
      TimesIsProduct(k - 1, size);
      assert k * size == (k - 1) * size + size;
    }
  }

  predicate SlicesOf(pages: seq<seq<Out>>, full: seq<Out>, size: nat) {
    forall k | 0 <= k < |pages| :: pages[k] == Slice(full, size, Times(k, size))
  }

  lemma {:induction false} PrefixOfPages(pages: seq<seq<Out>>, full: seq<Out>, size: nat)
    requires SlicesOf(pages, full, size)
    ensures Concat(pages) == Slice(full, Times(|pages|, size), 0)
  {
    if pages != [] {
      var n := |pages| - 1;
      PrefixOfPages(pages[..n], full, size);
      Chunk(full, Times(n, size), size);
    }
  }

  lemma Chunk(full: seq<Out>, from: nat, size: nat)
    ensures Slice(full, from, 0) + Slice(full, size, from) == Slice(full, from + size, 0)
  {}

  /** Every page is a slice of the same arrangement. */
  lemma OneArrangement(union: seq<Out>, key: Out -> Key, asc: bool, size: nat, pages: seq<seq<Out>>) returns (full: seq<Out>)
    requires DistinctIds(union) && pages != []
    requires forall k | 0 <= k < |pages| :: IsPage(pages[k], union, key, asc, size, Times(k, size))
    ensures Arranged(full, union, key, asc) && DistinctIds(full) && SlicesOf(pages, full, size)
  {
    assert IsPage(pages[0], union, key, asc, size, Times(0, size));
    full :| Arranged(full, union, key, asc) && pages[0] == Slice(full, size, Times(0, size));
    DistinctAfterSorting(union, full);
    forall k | 0 <= k < |pages| ensures pages[k] == Slice(full, size, Times(k, size)) {
      assert IsPage(pages[k], union, key, asc, size, Times(k, size));
      SamePage(pages[k], union, key, asc, size, Times(k, size), full);
    }
  }

  lemma SamePage(page: seq<Out>, union: seq<Out>, key: Out -> Key, asc: bool, limit: nat, offset: nat, full: seq<Out>)
    requires IsPage(page, union, key, asc, limit, offset) && Arranged(full, union, key, asc) && DistinctIds(full)
    ensures page == Slice(full, limit, offset)
  {
    var other :| Arranged(other, union, key, asc) && page == Slice(other, limit, offset);
    SortedUnique(key, asc, full, other);
  }

  /**
   * Pages fetched one by one, each from its own arrangement of the same union, concatenate to the
   * sorted union: no row repeats, none is missing.
   */
  lemma PagesConcatenate(union: seq<Out>, key: Out -> Key, asc: bool, size: nat, pages: seq<seq<Out>>)
    requires DistinctIds(union) && |pages| * size >= |union|
    requires forall k | 0 <= k < |pages| :: IsPage(pages[k], union, key, asc, size, k * size)
    ensures Arranged(Concat(pages), union, key, asc) && DistinctIds(Concat(pages))
  {
    TimesIsProduct(|pages|, size);
    if pages != [] {
      forall k | 0 <= k < |pages| ensures IsPage(pages[k], union, key, asc, size, Times(k, size)) { TimesIsProduct(k, size); }
      var full := OneArrangement(union, key, asc, size, pages);
      PrefixOfPages(pages, full, size);
      SameElements(full, union);
      WholeSlice(full, Times(|pages|, size));
    }
  }

  lemma WholeSlice(full: seq<Out>, n: nat)
    requires n >= |full|
    ensures Slice(full, n, 0) == full
  {}

  lemma DistinctAfterSorting(p: seq<Out>, q: seq<Out>)
    requires DistinctIds(p) && multiset(p) == multiset(q)
    ensures DistinctIds(q)
  {
    forall i, j | 0 <= i < j < |q| ensures q[i].id != q[j].id {
      SameElements(p, q);
      if q[i].id == q[j].id {
        assert q[i] in p && q[j] in p;
        DistinctRows(p, q[i], q[j]);
        TwiceInMultiset(q, i, j);
        OnceInDistinct(p, q[i]);
      }
    }
  }

  lemma TwiceInMultiset(q: seq<Out>, i: nat, j: nat)
    requires i < j < |q| && q[i] == q[j]
    ensures multiset(q)[q[i]] >= 2
  {
    assert q == q[..j] + ([q[j]] + q[j + 1..]);
    assert q[..j][i] == q[i];
    assert multiset(q) == multiset(q[..j]) + (multiset{q[j]} + multiset(q[j + 1..]));
    assert q[i] in multiset(q[..j]);
  }

  lemma {:induction false} OnceInDistinct(p: seq<Out>, x: Out)
    requires DistinctIds(p)
    ensures multiset(p)[x] <= 1
  {
    if p != [] {
      var init, last := p[..|p| - 1], p[|p| - 1];
      assert p == init + [last];
      OnceInDistinct(init, x);
      assert forall i | 0 <= i < |init| :: init[i] == p[i] && p[i].id != last.id;
      assert last !in init;
      assert multiset(p) == multiset(init) + multiset{last};
    }
  }
}
