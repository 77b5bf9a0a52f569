/** The compiled union answers exactly what the filters say (lib/inventoryOperations.js:638-745). */
module OperationsMeaning {
  import opened Text
  import opened OperationsQuery

  // ----- The filters stated on a row -----

  predicate FixedHolds(f: Fixed, r: Record) {
    match f
    case EqualsText(c, lit) => At(r, c) == Txt(lit)
    case DiffersFrom(c, lit) => At(r, c).Txt? && At(r, c).s != lit
    case IsNull(c) => At(r, c).Null?
    case Never => false
  }

  /** The day a row shows: its date column, of a DATETIME the first ten characters. */
  function DayOf(s: Source, r: Record): Value {
    if s.dateColumn !in r || r[s.dateColumn].Null? then Null
    else
      var text := r[s.dateColumn].s;
      Txt(if s.dateIsDatetime && |text| > 10 then text[..10] else text)
  }

  /** The number a row shows: its number column, or the key where there is none, or where it is NULL and the source falls back. */
  function NumberOf(s: Source, r: Record): Value {
    var key := if s.pk in r then r[s.pk] else Null;
    match s.numberColumn
    case None => key
    case Some(c) => if c in r && r[c].Txt? then r[c] else if s.numberFallbackToPk then key else Null
  }

  /** The row's raw status stands for one of the wanted canonical ones. */
  predicate StatusWanted(m: seq<(string, string)>, want: seq<string>, raw: Value) {
    exists i | 0 <= i < |m| :: raw == Txt(m[i].0) && m[i].1 in want
  }

  predicate AnyColumn(cols: seq<string>, r: Record, ids: seq<string>) {
    exists i | 0 <= i < |cols| :: At(r, cols[i]).Txt? && At(r, cols[i]).s in ids
  }

  /** No column is restricted, or some restricted column names a warehouse in reach. */
  predicate InScope(cols: seq<string>, scopeFor: string -> Scope, r: Record) {
    || (forall i | 0 <= i < |cols| :: scopeFor(cols[i]) == Everywhere)
    || exists i | 0 <= i < |cols| ::
         scopeFor(cols[i]).Only? && At(r, cols[i]).Txt? && At(r, cols[i]).s in scopeFor(cols[i]).ids
  }

  predicate Wanted(s: Source, o: Opts, r: Record) {
    && (s.extraWhere.Some? ==> FixedHolds(s.extraWhere.value, r))
    && (o.statuses != [] ==> StatusWanted(s.statusMap, o.statuses, At(r, s.statusColumn)))
    && (o.warehouseId != "" ==> AnyColumn(s.warehouseColumns, r, [o.warehouseId]))
    && (o.dateFrom != "" ==> DayOf(s, r).Txt? && Le(o.dateFrom, DayOf(s, r).s))
    && (o.dateTo != "" ==> DayOf(s, r).Txt? && Le(DayOf(s, r).s, o.dateTo))
    && (o.search != "" ==> NumberOf(s, r).Txt? && Like(NumberOf(s, r).s, "%" + o.search + "%"))
    && InScope(s.scopeColumns, o.scopeFor, r)
  }

  /** A source the caller asked for, may see, and whose tables exist. */
  predicate Visible(s: Source, o: Opts) {
    && (o.types != [] ==> s.documentType in o.types)
    && (s.capability.Some? ==> o.hasCapability(s.capability.value))
    && o.isAvailable(s.table) && (s.lineTable.Some? ==> o.isAvailable(s.lineTable.value))
  }

  /** What the union shows of a row. */
  function Shown(s: Source, r: Record): Out {
    var key := if s.pk in r then r[s.pk] else Null;
    var raw := if s.statusColumn in r then r[s.statusColumn] else Null;
    Out(s.documentType + (":" + (if key.Null? then "" else key.s)), s.documentType, key, NumberOf(s, r), DayOf(s, r),
        CaseStatus(s.statusMap, raw), raw)
  }

  /** The selected columns show the row so. */
  lemma ProjectShows(s: Source, r: Record)
    ensures Project(s, r) == Shown(s, r)
  {}

  function Kept(s: Source, o: Opts, rows: seq<Record>): seq<Out> {
    if rows == [] then []
    else
      var r := rows[|rows| - 1];
      Kept(s, o, rows[..|rows| - 1]) + (if Wanted(s, o, r) then [Shown(s, r)] else [])
  }

  /** Every visible source in order, every wanted row in table order. */
  function Direct(sources: seq<Source>, o: Opts, db: map<string, seq<Record>>): seq<Out> {
    if sources == [] then []
    else
      var s := sources[|sources| - 1];
      Direct(sources[..|sources| - 1], o, db) + (if Visible(s, o) && s.table in db then Kept(s, o, db[s.table]) else [])
  }

  // ----- Disjunctions and conjunctions of bound comparisons -----

  predicate Fits(ps: seq<Part>) { forall i | 0 <= i < |ps| :: |ps[i].args| == Holes(ps[i].atom) }

  predicate PartHolds(p: Part, r: Record)
    requires |p.args| == Holes(p.atom)
  { AtomTruth(p.atom, r, p.args) == Holds }

  lemma {:induction false} AnyMeans(ps: seq<Part>, r: Record)
    requires Fits(ps)
    ensures |ArgsOf(ps)| == AnyHoles(AtomsOf(ps))
    ensures AnyTruth(AtomsOf(ps), r, ArgsOf(ps)) == Holds <==> exists i | 0 <= i < |ps| :: PartHolds(ps[i], r)
  {
    if ps != [] {
      var init, last := ps[..|ps| - 1], ps[|ps| - 1];
      AnyMeans(init, r);
      var atoms, args := AtomsOf(ps), ArgsOf(ps);
      assert atoms[..|atoms| - 1] == AtomsOf(init) && atoms[|atoms| - 1] == last.atom;
      assert args == ArgsOf(init) + last.args;
      assert args[..|ArgsOf(init)|] == ArgsOf(init) && args[|ArgsOf(init)|..] == last.args;
      assert ps == init + [last];
      assert forall i | 0 <= i < |init| :: init[i] == ps[i];
      assert AnyTruth(atoms, r, args) == Or(AnyTruth(AtomsOf(init), r, ArgsOf(init)), AtomTruth(last.atom, r, last.args));
      if PartHolds(last, r) { assert PartHolds(ps[|ps| - 1], r); }
      if exists i | 0 <= i < |init| :: PartHolds(init[i], r) {
        var i :| 0 <= i < |init| && PartHolds(init[i], r);
        assert PartHolds(ps[i], r);
      }
    }
  }

  predicate ItemHolds(item: seq<Part>, r: Record)
    requires Fits(item)
  { item == [] || exists i | 0 <= i < |item| :: PartHolds(item[i], r) }

  predicate AllFit(items: seq<seq<Part>>) { forall k | 0 <= k < |items| :: Fits(items[k]) }

  predicate AllHold(items: seq<seq<Part>>, r: Record)
    requires AllFit(items)
  { forall k | 0 <= k < |items| :: ItemHolds(items[k], r) }

  lemma {:induction false} WhereMeans(items: seq<seq<Part>>, r: Record)
    requires AllFit(items)
    ensures |WhereArgs(items)| == WhereHoles(WhereOf(items))
    ensures WhereTruth(WhereOf(items), r, WhereArgs(items)) == Holds <==> AllHold(items, r)
  {
    if items != [] {
      var init, last := items[..|items| - 1], items[|items| - 1];
      assert items == init + [last];
      assert forall k | 0 <= k < |init| :: init[k] == items[k];
      WhereMeans(init, r);
      WhereMeansNext(init, last, r);
    }
  }

  lemma WhereMeansNext(init: seq<seq<Part>>, last: seq<Part>, r: Record)
    requires AllFit(init) && Fits(last) && |WhereArgs(init)| == WhereHoles(WhereOf(init))
    requires WhereTruth(WhereOf(init), r, WhereArgs(init)) == Holds <==> AllHold(init, r)
    ensures AllFit(init + [last])
    ensures |WhereArgs(init + [last])| == WhereHoles(WhereOf(init + [last]))
    ensures WhereTruth(WhereOf(init + [last]), r, WhereArgs(init + [last])) == Holds <==> AllHold(init + [last], r)
  {
    PushItem(init, last);
    AnyMeans(last, r);
    var where, args := WhereOf(init), WhereArgs(init);
    if last == [] {
      assert ArgsOf(last) == [] && args + [] == args && where + [] == where;
    } else {
      WhereSnoc(where, AtomsOf(last), r, args, ArgsOf(last));
    }
    AllHoldSnoc(init, last, r);
  }

  lemma AllHoldSnoc(init: seq<seq<Part>>, last: seq<Part>, r: Record)
    requires AllFit(init) && Fits(last)
    ensures AllFit(init + [last]) && (AllHold(init + [last], r) <==> AllHold(init, r) && ItemHolds(last, r))
  {
    var items := init + [last];
    assert items[|init|] == last && forall k | 0 <= k < |init| :: items[k] == init[k];
    if AllHold(items, r) {
      assert ItemHolds(items[|init|], r);
      forall k | 0 <= k < |init| ensures ItemHolds(init[k], r) { assert ItemHolds(items[k], r); }
    }
  }

  lemma WhereSnoc(where: seq<seq<Atom>>, item: seq<Atom>, r: Record, given: seq<string>, more: seq<string>)
    requires |given| == WhereHoles(where) && |more| == AnyHoles(item)
    ensures WhereHoles(where + [item]) == |given + more|
    ensures WhereTruth(where + [item], r, given + more) == And(WhereTruth(where, r, given), AnyTruth(item, r, more))
  {
    assert (where + [item])[..|where|] == where;
    assert (given + more)[..|given|] == given && (given + more)[|given|..] == more;
  }

  // ----- What each item means -----

  lemma {:induction false} RawStatuses(m: seq<(string, string)>, want: seq<string>, raw: string)
    ensures raw in RawStatusesFor(m, want) <==> StatusWanted(m, want, Txt(raw))
  {
    if m != [] {
      var init, last := m[..|m| - 1], m[|m| - 1];
      RawStatuses(init, want, raw);
      assert forall i | 0 <= i < |init| :: init[i] == m[i];
      if StatusWanted(m, want, Txt(raw)) && !(raw == last.0 && last.1 in want) {
        var i :| 0 <= i < |m| && Txt(raw) == Txt(m[i].0) && m[i].1 in want;
        assert init[i] == m[i];
      }
      if StatusWanted(init, want, Txt(raw)) {
        var i :| 0 <= i < |init| && Txt(raw) == Txt(init[i].0) && init[i].1 in want;
        assert m[i] == init[i];
      }
      if raw == last.0 && last.1 in want { assert Txt(raw) == Txt(m[|m| - 1].0); }
    }
  }

  lemma StatusItem(s: Source, o: Opts, r: Record)
    requires o.statuses != []
    ensures Fits(StatusParts(s, o))
    ensures ItemHolds(StatusParts(s, o), r) <==> StatusWanted(s.statusMap, o.statuses, At(r, s.statusColumn))
  {
    var raw, ps := At(r, s.statusColumn), StatusParts(s, o);
    if raw.Txt? { RawStatuses(s.statusMap, o.statuses, raw.s); }
    assert PartHolds(ps[0], r) <==> raw.Txt? && raw.s in RawStatusesFor(s.statusMap, o.statuses);
  }

  lemma WarehouseItemMeans(cols: seq<string>, id: string, r: Record)
    requires cols != []
    ensures Fits(WarehouseParts(cols, id))
    ensures ItemHolds(WarehouseParts(cols, id), r) <==> AnyColumn(cols, r, [id])
  {
    var ps := WarehouseParts(cols, id);
    forall i | 0 <= i < |cols| ensures PartHolds(ps[i], r) <==> At(r, cols[i]).Txt? && At(r, cols[i]).s in [id] {}
  }

  /** A restricted column contributes its comparison; an unrestricted one nothing. */
  predicate Reaches(c: string, scopeFor: string -> Scope, r: Record) {
    scopeFor(c).Only? && At(r, c).Txt? && At(r, c).s in scopeFor(c).ids
  }

  lemma ScopePartMeans(c: string, ids: seq<string>, r: Record)
    ensures var p := ScopePart(c, ids);
            |p.args| == Holes(p.atom) && (PartHolds(p, r) <==> At(r, c).Txt? && At(r, c).s in ids)
  {}

  lemma {:induction false} ScopePartsMean(cols: seq<string>, scopeFor: string -> Scope, r: Record)
    ensures Fits(ScopeParts(cols, scopeFor))
    ensures ScopeParts(cols, scopeFor) == [] <==> forall i | 0 <= i < |cols| :: scopeFor(cols[i]) == Everywhere
    ensures var ps := ScopeParts(cols, scopeFor);
            (exists i | 0 <= i < |ps| :: PartHolds(ps[i], r)) <==> exists i | 0 <= i < |cols| :: Reaches(cols[i], scopeFor, r)
  {
    if cols != [] {
      var init, c := cols[..|cols| - 1], cols[|cols| - 1];
      ScopePartsMean(init, scopeFor, r);
      assert cols == init + [c];
      var qs, ps := ScopeParts(init, scopeFor), ScopeParts(cols, scopeFor);
      assert forall i | 0 <= i < |init| :: init[i] == cols[i];
      if scopeFor(c).Only? {
        ScopePartMeans(c, scopeFor(c).ids, r);
        assert ps == qs + [ScopePart(c, scopeFor(c).ids)];
        ExistsSnoc(qs, ScopePart(c, scopeFor(c).ids), r);
      } else {
        assert ps == qs;
      }
      ReachesSnoc(init, c, scopeFor, r);
    }
  }

  lemma ExistsSnoc(qs: seq<Part>, p: Part, r: Record)
    requires Fits(qs) && |p.args| == Holes(p.atom)
    ensures Fits(qs + [p])
    ensures (exists i | 0 <= i < |qs| + 1 :: PartHolds((qs + [p])[i], r))
       <==> (exists i | 0 <= i < |qs| :: PartHolds(qs[i], r)) || PartHolds(p, r)
  {
    var ps := qs + [p];
    assert forall i | 0 <= i < |qs| :: ps[i] == qs[i];
    if exists i | 0 <= i < |qs| :: PartHolds(qs[i], r) {
      var i :| 0 <= i < |qs| && PartHolds(qs[i], r);
      assert PartHolds(ps[i], r);
    }
    if PartHolds(p, r) { assert PartHolds(ps[|qs|], r); }
  }

  lemma ReachesSnoc(init: seq<string>, c: string, scopeFor: string -> Scope, r: Record)
    ensures (exists i | 0 <= i < |init| + 1 :: Reaches((init + [c])[i], scopeFor, r))
       <==> (exists i | 0 <= i < |init| :: Reaches(init[i], scopeFor, r)) || Reaches(c, scopeFor, r)
  {
    var cols := init + [c];
    assert forall i | 0 <= i < |init| :: cols[i] == init[i];
    if exists i | 0 <= i < |init| :: Reaches(init[i], scopeFor, r) {
      var i :| 0 <= i < |init| && Reaches(init[i], scopeFor, r);
      assert Reaches(cols[i], scopeFor, r);
    }
    if Reaches(c, scopeFor, r) { assert Reaches(cols[|init|], scopeFor, r); }
  }

  lemma ScopeItemMeans(cols: seq<string>, scopeFor: string -> Scope, r: Record)
    ensures Fits(ScopeParts(cols, scopeFor))
    ensures ItemHolds(ScopeParts(cols, scopeFor), r) <==> InScope(cols, scopeFor, r)
  {
    ScopePartsMean(cols, scopeFor, r);
    if exists i | 0 <= i < |cols| :: Reaches(cols[i], scopeFor, r) {
      var i :| 0 <= i < |cols| && Reaches(cols[i], scopeFor, r);
    }
    if InScope(cols, scopeFor, r) && !(forall i | 0 <= i < |cols| :: scopeFor(cols[i]) == Everywhere) {
      var i :| 0 <= i < |cols| && scopeFor(cols[i]).Only? && At(r, cols[i]).Txt? && At(r, cols[i]).s in scopeFor(cols[i]).ids;
      assert Reaches(cols[i], scopeFor, r);
    }
  }

  /** An item of one comparison. */
  lemma OneMeans(p: Part, r: Record)
    requires |p.args| == Holes(p.atom)
    ensures Fits([p]) && (ItemHolds([p], r) <==> PartHolds(p, r))
  { assert [p][0] == p; }

  lemma FixedItemMeans(s: Source, r: Record)
    ensures Fits(FixedItem(s)) && (ItemHolds(FixedItem(s), r) <==> (s.extraWhere.Some? ==> FixedHolds(s.extraWhere.value, r)))
  { if s.extraWhere.Some? { OneMeans(Part(Const(s.extraWhere.value), []), r); } }

  lemma RangeItemsMean(s: Source, o: Opts, r: Record)
    ensures Fits(FromItem(s, o)) && Fits(ToItem(s, o)) && Fits(SearchItem(s, o))
    ensures var d, n := DayOf(s, r), NumberOf(s, r);
            && (ItemHolds(FromItem(s, o), r) <==> (o.dateFrom != "" ==> d.Txt? && Le(o.dateFrom, d.s)))
            && (ItemHolds(ToItem(s, o), r) <==> (o.dateTo != "" ==> d.Txt? && Le(d.s, o.dateTo)))
            && (ItemHolds(SearchItem(s, o), r) <==> (o.search != "" ==> n.Txt? && Like(n.s, "%" + o.search + "%")))
  {
    OneMeans(Part(AtLeast(DateExpr(s)), [o.dateFrom]), r);
    OneMeans(Part(AtMost(DateExpr(s)), [o.dateTo]), r);
    OneMeans(Part(LikeHole(NumberExpr(s)), ["%" + o.search + "%"]), r);
  }

  /** The compiled WHERE of a source that stays in the union holds on exactly the wanted rows. */
  lemma WhereMeansWanted(s: Source, o: Opts, r: Record)
    requires Exclusion(s, o).None?
    ensures |WhereArgs(Items(s, o))| == WhereHoles(WhereOf(Items(s, o)))
    ensures WhereTruth(WhereOf(Items(s, o)), r, WhereArgs(Items(s, o))) == Holds <==> Wanted(s, o, r)
  {
    FixedItemMeans(s, r);
    if o.statuses != [] { StatusItem(s, o, r); }
    if o.warehouseId != "" { WarehouseItemMeans(s.warehouseColumns, o.warehouseId, r); }
    RangeItemsMean(s, o, r);
    ScopeItemMeans(s.scopeColumns, o.scopeFor, r);
    SevenItems(s, o, r);
  }

  lemma SevenItems(s: Source, o: Opts, r: Record)
    requires Fits(FixedItem(s)) && Fits(StatusParts(s, o)) && Fits(WarehouseItem(s, o)) && Fits(FromItem(s, o))
    requires Fits(ToItem(s, o)) && Fits(SearchItem(s, o)) && Fits(ScopeParts(s.scopeColumns, o.scopeFor))
    ensures |WhereArgs(Items(s, o))| == WhereHoles(WhereOf(Items(s, o)))
    ensures WhereTruth(WhereOf(Items(s, o)), r, WhereArgs(Items(s, o))) == Holds
       <==> ItemHolds(FixedItem(s), r) && ItemHolds(StatusParts(s, o), r) && ItemHolds(WarehouseItem(s, o), r)
            && ItemHolds(FromItem(s, o), r) && ItemHolds(ToItem(s, o), r) && ItemHolds(SearchItem(s, o), r)
            && ItemHolds(ScopeParts(s.scopeColumns, o.scopeFor), r)
  {
    var it := Items(s, o);
    assert |it| == 7 && it[0] == FixedItem(s) && it[1] == StatusParts(s, o) && it[2] == WarehouseItem(s, o)
           && it[3] == FromItem(s, o) && it[4] == ToItem(s, o) && it[5] == SearchItem(s, o)
           && it[6] == ScopeParts(s.scopeColumns, o.scopeFor);
    AllSeven(it, r);
    WhereMeans(it, r);
  }

  lemma AllSeven(it: seq<seq<Part>>, r: Record)
    requires |it| == 7
    requires Fits(it[0]) && Fits(it[1]) && Fits(it[2]) && Fits(it[3]) && Fits(it[4]) && Fits(it[5]) && Fits(it[6])
    ensures AllFit(it)
    ensures AllHold(it, r)
       <==> ItemHolds(it[0], r) && ItemHolds(it[1], r) && ItemHolds(it[2], r) && ItemHolds(it[3], r)
            && ItemHolds(it[4], r) && ItemHolds(it[5], r) && ItemHolds(it[6], r)
  {}

  // ----- The whole query -----

  /** A visible source is dropped only when no row of it could be wanted. */
  lemma ExcludedSource(s: Source, o: Opts, rows: seq<Record>)
    requires Exclusion(s, o).Some?
    ensures Visible(s, o) ==> Kept(s, o, rows) == []
    ensures Exclusion(s, o).value in {"not_requested", "capability", "unavailable"} <==> !Visible(s, o)
  {
    if Visible(s, o) {
      forall r ensures !Wanted(s, o, r) {
        if o.statuses != [] && RawStatusesFor(s.statusMap, o.statuses) == [] && At(r, s.statusColumn).Txt? {
          RawStatuses(s.statusMap, o.statuses, At(r, s.statusColumn).s);
        }
      }
      NothingKept(s, o, rows);
    }
  }

  lemma {:induction false} NothingKept(s: Source, o: Opts, rows: seq<Record>)
    requires forall r :: !Wanted(s, o, r)
    ensures Kept(s, o, rows) == []
  { if rows != [] { NothingKept(s, o, rows[..|rows| - 1]); } }

  lemma IncludedSource(s: Source, o: Opts)
    requires Exclusion(s, o).None?
    ensures Visible(s, o) && |WhereArgs(Items(s, o))| == WhereHoles(WhereOf(Items(s, o)))
  { WhereMeansWanted(s, o, map[]); }

  lemma SelectSnoc(b: Branch, rows: seq<Record>, args: seq<string>)
    requires |args| == WhereHoles(b.where) && rows != []
    ensures var r := rows[|rows| - 1];
            RunSelect(b, rows, args)
            == RunSelect(b, rows[..|rows| - 1], args) + (if WhereTruth(b.where, r, args) == Holds then [Project(b.source, r)] else [])
  {}

  lemma {:induction false} SelectKeepsWanted(s: Source, o: Opts, rows: seq<Record>)
    requires Exclusion(s, o).None? && |WhereArgs(Items(s, o))| == WhereHoles(WhereOf(Items(s, o)))
    ensures RunSelect(Branch(s, WhereOf(Items(s, o))), rows, WhereArgs(Items(s, o))) == Kept(s, o, rows)
  {
    if rows != [] {
      var r := rows[|rows| - 1];
      SelectKeepsWanted(s, o, rows[..|rows| - 1]);
      SelectSnoc(Branch(s, WhereOf(Items(s, o))), rows, WhereArgs(Items(s, o)));
      WhereMeansWanted(s, o, r);
      ProjectShows(s, r);
    }
  }

  lemma QuerySnoc(q: seq<Branch>, b: Branch, db: map<string, seq<Record>>, given: seq<string>, more: seq<string>)
    requires |given| == QueryHoles(q) && |more| == WhereHoles(b.where)
    ensures QueryHoles(q + [b]) == |given + more|
    ensures RunQuery(q + [b], db, given + more) == RunQuery(q, db, given) + RunSelect(b, Rows(db, b.source), more)
  {
    assert (q + [b])[..|q|] == q;
    assert (given + more)[..|given|] == given && (given + more)[|given|..] == more;
  }

  /**
   * For all sources, filters, scopes and tables: placeholders and parameters match one to one, and
   * the query with its parameters bound in order gives exactly the wanted rows of the visible sources.
   */
  lemma {:induction false} CompiledMeansDirect(sources: seq<Source>, o: Opts, db: map<string, seq<Record>>)
    ensures |Compile(sources, o).params| == QueryHoles(Compile(sources, o).branches)
    ensures RunQuery(Compile(sources, o).branches, db, Compile(sources, o).params) == Direct(sources, o, db)
  {
    if sources != [] {
      var init, s := sources[..|sources| - 1], sources[|sources| - 1];
      CompiledMeansDirect(init, o, db);
      var b := Compile(init, o);
      if Exclusion(s, o).Some? {
        ExcludedSource(s, o, Rows(db, s));
        assert Direct(sources, o, db) == Direct(init, o, db);
      } else {
        IncludedSource(s, o);
        QuerySnoc(b.branches, Branch(s, WhereOf(Items(s, o))), db, b.params, WhereArgs(Items(s, o)));
        SelectKeepsWanted(s, o, Rows(db, s));
      }
    }
  }

  /** Why a source stays out: the first of the five reasons, in this order, that is true. */
  lemma ExclusionIs(s: Source, o: Opts)
    ensures var asked := o.types == [] || s.documentType in o.types;
            var capable := s.capability.None? || o.hasCapability(s.capability.value);
            var present := o.isAvailable(s.table) && (s.lineTable.None? || o.isAvailable(s.lineTable.value));
            var possible := o.statuses == [] || exists i | 0 <= i < |s.statusMap| :: s.statusMap[i].1 in o.statuses;
            && (Exclusion(s, o) == Some("not_requested") <==> !asked)
            && (Exclusion(s, o) == Some("capability") <==> asked && !capable)
            && (Exclusion(s, o) == Some("unavailable") <==> asked && capable && !present)
            && (Exclusion(s, o) == Some("status_filter") <==> asked && capable && present && !possible)
            && (Exclusion(s, o) == Some("warehouse_filter")
                <==> asked && capable && present && possible && o.warehouseId != "" && s.warehouseColumns == [])
            && (Exclusion(s, o) == None
                <==> asked && capable && present && possible && (o.warehouseId == "" || s.warehouseColumns != []))
  { NoRawStatus(s.statusMap, o.statuses); }

  lemma {:induction false} NoRawStatus(m: seq<(string, string)>, want: seq<string>)
    ensures RawStatusesFor(m, want) == [] <==> forall i | 0 <= i < |m| :: m[i].1 !in want
  {
    if m != [] {
      var init := m[..|m| - 1];
      NoRawStatus(init, want);
      assert forall i | 0 <= i < |init| :: init[i] == m[i];
    }
  }

  /** The included and the excluded types together are the sources, each once, and the excluded add no branch. */
  lemma {:induction false} EverySourceAccounted(sources: seq<Source>, o: Opts)
    ensures var b := Compile(sources, o);
            && |b.included| + |b.excluded| == |sources| && |b.branches| == |b.included|
            && forall i | 0 <= i < |b.branches| ::
                 b.branches[i].source in sources && Exclusion(b.branches[i].source, o).None?
                 && b.branches[i].source.documentType == b.included[i]
  {
    if sources != [] {
      var init := sources[..|sources| - 1];
      EverySourceAccounted(init, o);
      assert sources == init + [sources[|sources| - 1]];
    }
  }

  // ----- Canonical statuses -----

  predicate DistinctRaws(m: seq<(string, string)>) { forall i, j | 0 <= i < j < |m| :: m[i].0 != m[j].0 }

  predicate KnownRaw(m: seq<(string, string)>, raw: Value) { exists i | 0 <= i < |m| :: raw == Txt(m[i].0) }

  lemma {:induction false} CaseOfKnown(m: seq<(string, string)>, raw: Value)
    requires DistinctRaws(m)
    ensures KnownRaw(m, raw) ==> exists i | 0 <= i < |m| :: raw == Txt(m[i].0) && CaseStatus(m, raw) == m[i].1
    ensures !KnownRaw(m, raw) ==> CaseStatus(m, raw) == "draft"
  {
    if m != [] && raw != Txt(m[0].0) {
      var rest := m[1..];
      CaseOfKnown(rest, raw);
      if KnownRaw(m, raw) {
        var i :| 0 <= i < |m| && raw == Txt(m[i].0);
        assert rest[i - 1] == m[i];
        var j :| 0 <= j < |rest| && raw == Txt(rest[j].0) && CaseStatus(rest, raw) == rest[j].1;
        assert m[j + 1] == rest[j];
      } else {
        forall i | 0 <= i < |rest| ensures raw != Txt(rest[i].0) { assert rest[i] == m[i + 1]; }
      }
    } else if m != [] {
      assert raw == Txt(m[0].0) && CaseStatus(m, raw) == m[0].1;
    }
  }

  /**
   * Filtering the raw statuses is filtering the projected status exactly when the raw status is one
   * of the map's or the fallback 'draft' is not wanted.
   */
  lemma StatusFilterMeansProjected(m: seq<(string, string)>, want: seq<string>, raw: Value)
    requires DistinctRaws(m)
    ensures (StatusWanted(m, want, raw) <==> CaseStatus(m, raw) in want) <==> KnownRaw(m, raw) || "draft" !in want
  {
    CaseOfKnown(m, raw);
    if KnownRaw(m, raw) {
      var i :| 0 <= i < |m| && raw == Txt(m[i].0) && CaseStatus(m, raw) == m[i].1;
      if StatusWanted(m, want, raw) {
        var j :| 0 <= j < |m| && raw == Txt(m[j].0) && m[j].1 in want;
        assert i == j;
      }
    }
  }

  function WithStatus(outs: seq<Out>, want: seq<string>): seq<Out> {
    if outs == [] then []
    else WithStatus(outs[..|outs| - 1], want) + (if outs[|outs| - 1].status in want then [outs[|outs| - 1]] else [])
  }

  lemma {:induction false} WithStatusConcat(a: seq<Out>, b: seq<Out>, want: seq<string>)
    ensures WithStatus(a + b, want) == WithStatus(a, want) + WithStatus(b, want)
  {
    if b == [] {
      assert a + b == a;
    } else {
      assert (a + b)[..|a + b| - 1] == a + b[..|b| - 1];
      WithStatusConcat(a, b[..|b| - 1], want);
    }
  }

  predicate StatusesKnown(s: Source, want: seq<string>, rows: seq<Record>) {
    "draft" !in want || forall r | r in rows :: KnownRaw(s.statusMap, At(r, s.statusColumn))
  }

  lemma {:induction false} KeptByStatus(s: Source, o: Opts, rows: seq<Record>)
    requires o.statuses != [] && DistinctRaws(s.statusMap) && StatusesKnown(s, o.statuses, rows)
    ensures Kept(s, o, rows) == WithStatus(Kept(s, o.(statuses := []), rows), o.statuses)
  {
    if rows != [] {
      var init, r := rows[..|rows| - 1], rows[|rows| - 1];
      assert rows == init + [r];
      KeptByStatus(s, o, init);
      StatusFilterMeansProjected(s.statusMap, o.statuses, At(r, s.statusColumn));
      var last := if Wanted(s, o.(statuses := []), r) then [Shown(s, r)] else [];
      assert Shown(s, r).status == CaseStatus(s.statusMap, At(r, s.statusColumn));
      WithStatusConcat(Kept(s, o.(statuses := []), init), last, o.statuses);
      assert [Shown(s, r)][..0] == [];
    }
  }

  /** The status filter picks from the unfiltered union exactly the rows whose projected status is wanted. */
  lemma {:induction false} StatusFilterOnUnion(sources: seq<Source>, o: Opts, db: map<string, seq<Record>>)
    requires o.statuses != []
    requires forall s | s in sources :: DistinctRaws(s.statusMap) && StatusesKnown(s, o.statuses, Rows(db, s))
    ensures Direct(sources, o, db) == WithStatus(Direct(sources, o.(statuses := []), db), o.statuses)
  {
    if sources != [] {
      var init, s := sources[..|sources| - 1], sources[|sources| - 1];
      assert s in sources && forall x | x in init :: x in sources;
      StatusFilterOnUnion(init, o, db);
      KeptByStatus(s, o, Rows(db, s));
      var all := o.(statuses := []);
      WithStatusConcat(Direct(init, all, db), if Visible(s, all) then Kept(s, all, Rows(db, s)) else [], o.statuses);
    }
  }
}
