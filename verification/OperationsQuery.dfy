/**
 * buildUnionSql of lib/inventoryOperations.js:581-745: descriptors and filters compiled into a union
 * of SELECTs with positional parameters, and the filters stated directly on the rows.
 */
module OperationsQuery {
  import opened Text

  // ----- Tables and descriptors -----

  datatype Value = Null | Txt(s: string)

  type Record = map<string, Value>

  function At(r: Record, c: string): Value { if c in r then r[c] else Null }

  /** The constant conditions: the descriptors' extraWhere shapes and the empty scope's 1=0. */
  datatype Fixed = EqualsText(col: string, lit: string) | DiffersFrom(col: string, lit: string)
                 | IsNull(col: string) | Never

  datatype Source = Source(documentType: string, table: string, pk: string,
                           numberColumn: Option<string>, numberFallbackToPk: bool,
                           dateColumn: string, dateIsDatetime: bool,
                           statusColumn: string, statusMap: seq<(string, string)>,
                           lineTable: Option<string>, capability: Option<string>,
                           scopeColumns: seq<string>, warehouseColumns: seq<string>, extraWhere: Option<Fixed>)

  /** What whScopeClause answers for a column: no clause, or the warehouses in reach. */
  datatype Scope = Everywhere | Only(ids: seq<string>)

  /** Empty lists and texts stand for absent filters. */
  datatype Opts = Opts(types: seq<string>, statuses: seq<string>, warehouseId: string,
                       dateFrom: string, dateTo: string, search: string,
                       hasCapability: string -> bool, isAvailable: string -> bool, scopeFor: string -> Scope)

  // ----- The SQL that is built -----

  datatype Expr = Col(c: string) | DateOf(c: string) | FirstOf(c: string, d: string)

  /** One comparison; In has n placeholders, Const none, the others one. */
  datatype Atom = In(e: Expr, n: nat) | Eq(e: Expr) | AtLeast(e: Expr) | AtMost(e: Expr) | LikeHole(e: Expr) | Const(f: Fixed)

  /** SELECT ... FROM table t WHERE every item holds; an item is a disjunction of comparisons. */
  datatype Branch = Branch(source: Source, where: seq<seq<Atom>>)

  datatype Out = Out(id: string, documentType: string, documentId: Value, documentNumber: Value,
                     date: Value, status: string, rawStatus: Value)

  // ----- What it means: three-valued logic, placeholders bound in order -----

  datatype Truth = Holds | Fails | Unknown

  function ValueOf(e: Expr, r: Record): Value {
    match e
    case Col(c) => At(r, c)
    case DateOf(c) =>
      var v := At(r, c);
      if v.Null? then Null else Txt(if |v.s| <= 10 then v.s else v.s[..10])
    case FirstOf(c, d) => if At(r, c).Null? then At(r, d) else At(r, c)
  }

  function Known(b: bool): Truth { if b then Holds else Fails }

  function FixedTruth(f: Fixed, r: Record): Truth {
    match f
    case EqualsText(c, lit) => if At(r, c).Null? then Unknown else Known(At(r, c).s == lit)
    case DiffersFrom(c, lit) => if At(r, c).Null? then Unknown else Known(At(r, c).s != lit)
    case IsNull(c) => Known(At(r, c).Null?)
    case Never => Fails
  }

  function Holes(a: Atom): nat { match a case In(_, n) => n case Const(_) => 0 case _ => 1 }

  function AtomTruth(a: Atom, r: Record, args: seq<string>): Truth
    requires |args| == Holes(a)
  {
    if a.Const? then FixedTruth(a.f, r)
    else
      var v := ValueOf(a.e, r);
      if v.Null? then Unknown
      else match a
        case In(_, _) => Known(v.s in args)
        case Eq(_) => Known(v.s == args[0])
        case AtLeast(_) => Known(Le(args[0], v.s))
        case AtMost(_) => Known(Le(v.s, args[0]))
        case LikeHole(_) => Known(Like(v.s, args[0]))
  }

  function Or(p: Truth, q: Truth): Truth {
    if p == Holds || q == Holds then Holds else if p == Fails && q == Fails then Fails else Unknown
  }

  function And(p: Truth, q: Truth): Truth {
    if p == Fails || q == Fails then Fails else if p == Holds && q == Holds then Holds else Unknown
  }

  function AnyHoles(atoms: seq<Atom>): nat {
    if atoms == [] then 0 else AnyHoles(atoms[..|atoms| - 1]) + Holes(atoms[|atoms| - 1])
  }

  /** A disjunction; its last comparison takes the last parameters. */
  function AnyTruth(atoms: seq<Atom>, r: Record, args: seq<string>): Truth
    requires |args| == AnyHoles(atoms)
  {
    if atoms == [] then Fails
    else
      var k := AnyHoles(atoms[..|atoms| - 1]);
      Or(AnyTruth(atoms[..|atoms| - 1], r, args[..k]), AtomTruth(atoms[|atoms| - 1], r, args[k..]))
  }

  function WhereHoles(where: seq<seq<Atom>>): nat {
    if where == [] then 0 else WhereHoles(where[..|where| - 1]) + AnyHoles(where[|where| - 1])
  }

  function WhereTruth(where: seq<seq<Atom>>, r: Record, args: seq<string>): Truth
    requires |args| == WhereHoles(where)
  {
    if where == [] then Holds
    else
      var k := WhereHoles(where[..|where| - 1]);
      And(WhereTruth(where[..|where| - 1], r, args[..k]), AnyTruth(where[|where| - 1], r, args[k..]))
  }

  /** CASE status WHEN raw THEN canonical ... ELSE 'draft' END. */
  function CaseStatus(m: seq<(string, string)>, raw: Value): string {
    if m == [] then "draft"
    else if raw == Txt(m[0].0) then m[0].1
    else CaseStatus(m[1..], raw)
  }

  function NumberExpr(s: Source): Expr {
    if s.numberColumn.None? then Col(s.pk)
    else if s.numberFallbackToPk then FirstOf(s.numberColumn.value, s.pk)
    else Col(s.numberColumn.value)
  }

  function DateExpr(s: Source): Expr { if s.dateIsDatetime then DateOf(s.dateColumn) else Col(s.dateColumn) }

  function TextOf(v: Value): string { if v.Null? then "" else v.s }

  function Project(s: Source, r: Record): Out {
    Out(s.documentType + (":" + TextOf(At(r, s.pk))), s.documentType, At(r, s.pk), ValueOf(NumberExpr(s), r),
        ValueOf(DateExpr(s), r), CaseStatus(s.statusMap, At(r, s.statusColumn)), At(r, s.statusColumn))
  }

  function Rows(db: map<string, seq<Record>>, s: Source): seq<Record> { if s.table in db then db[s.table] else [] }

  function RunSelect(b: Branch, rows: seq<Record>, args: seq<string>): seq<Out>
    requires |args| == WhereHoles(b.where)
  {
    if rows == [] then []
    else
      var r := rows[|rows| - 1];
      RunSelect(b, rows[..|rows| - 1], args)
      + (if WhereTruth(b.where, r, args) == Holds then [Project(b.source, r)] else [])
  }

  function QueryHoles(q: seq<Branch>): nat {
    if q == [] then 0 else QueryHoles(q[..|q| - 1]) + WhereHoles(q[|q| - 1].where)
  }

  /** The branches joined by UNION ALL; each takes the parameters after those of the branches before it. */
  function RunQuery(q: seq<Branch>, db: map<string, seq<Record>>, params: seq<string>): seq<Out>
    requires |params| == QueryHoles(q)
  {
    if q == [] then []
    else
      var b, k := q[|q| - 1], QueryHoles(q[..|q| - 1]);
      RunQuery(q[..|q| - 1], db, params[..k]) + RunSelect(b, Rows(db, b.source), params[k..])
  }

  // ----- What is compiled -----

  /** A comparison with the parameters it pushes. */
  datatype Part = Part(atom: Atom, args: seq<string>)

  function RawStatusesFor(m: seq<(string, string)>, want: seq<string>): seq<string> {
    if m == [] then []
    else RawStatusesFor(m[..|m| - 1], want) + (if m[|m| - 1].1 in want then [m[|m| - 1].0] else [])
  }

  function WarehouseParts(cols: seq<string>, id: string): (ps: seq<Part>)
    ensures |ps| == |cols|
  { seq(|cols|, i requires 0 <= i < |cols| => Part(Eq(Col(cols[i])), [id])) }

  function ScopePart(c: string, ids: seq<string>): Part {
    if ids == [] then Part(Const(Never), []) else Part(In(Col(c), |ids|), ids)
  }

  function ScopeParts(cols: seq<string>, scopeFor: string -> Scope): seq<Part> {
    if cols == [] then []
    else
      var c := cols[|cols| - 1];
      ScopeParts(cols[..|cols| - 1], scopeFor)
      + (match scopeFor(c) case Everywhere => [] case Only(ids) => [ScopePart(c, ids)])
  }

  function StatusParts(s: Source, o: Opts): seq<Part> {
    if o.statuses == [] then []
    else var raws := RawStatusesFor(s.statusMap, o.statuses); [Part(In(Col(s.statusColumn), |raws|), raws)]
  }

  function FixedItem(s: Source): seq<Part> {
    if s.extraWhere.Some? then [Part(Const(s.extraWhere.value), [])] else []
  }

  function WarehouseItem(s: Source, o: Opts): seq<Part> {
    if o.warehouseId != "" then WarehouseParts(s.warehouseColumns, o.warehouseId) else []
  }

  function FromItem(s: Source, o: Opts): seq<Part> {
    if o.dateFrom != "" then [Part(AtLeast(DateExpr(s)), [o.dateFrom])] else []
  }

  function ToItem(s: Source, o: Opts): seq<Part> {
    if o.dateTo != "" then [Part(AtMost(DateExpr(s)), [o.dateTo])] else []
  }

  function SearchItem(s: Source, o: Opts): seq<Part> {
    if o.search != "" then [Part(LikeHole(NumberExpr(s)), ["%" + o.search + "%"])] else []
  }

  /** The WHERE items in their order, each a disjunction with its parameters; an absent filter gives none. */
  function Items(s: Source, o: Opts): seq<seq<Part>> {
    [FixedItem(s)] + [StatusParts(s, o)] + [WarehouseItem(s, o)]
    + [FromItem(s, o)] + [ToItem(s, o)] + [SearchItem(s, o)] + [ScopeParts(s.scopeColumns, o.scopeFor)]
  }

  /** Why a source is left out of the union, in the order the reasons are tested. */
  function Exclusion(s: Source, o: Opts): Option<string> {
    if o.types != [] && s.documentType !in o.types then Some("not_requested")
    else if s.capability.Some? && !o.hasCapability(s.capability.value) then Some("capability")
    else if !o.isAvailable(s.table) || (s.lineTable.Some? && !o.isAvailable(s.lineTable.value)) then Some("unavailable")
    else if o.statuses != [] && RawStatusesFor(s.statusMap, o.statuses) == [] then Some("status_filter")
    else if o.warehouseId != "" && s.warehouseColumns == [] then Some("warehouse_filter")
    else None
  }

  function AtomsOf(ps: seq<Part>): (r: seq<Atom>)
    ensures |r| == |ps|
  { seq(|ps|, i requires 0 <= i < |ps| => ps[i].atom) }

  function ArgsOf(ps: seq<Part>): seq<string> {
    if ps == [] then [] else ArgsOf(ps[..|ps| - 1]) + ps[|ps| - 1].args
  }

  function WhereOf(items: seq<seq<Part>>): seq<seq<Atom>> {
    if items == [] then []
    else WhereOf(items[..|items| - 1]) + (if items[|items| - 1] == [] then [] else [AtomsOf(items[|items| - 1])])
  }

  function WhereArgs(items: seq<seq<Part>>): seq<string> {
    if items == [] then [] else WhereArgs(items[..|items| - 1]) + ArgsOf(items[|items| - 1])
  }

  datatype Built = Built(branches: seq<Branch>, params: seq<string>, included: seq<string>, excluded: seq<(string, string)>)

  function Compile(sources: seq<Source>, o: Opts): Built {
    if sources == [] then Built([], [], [], [])
    else
      var s, b := sources[|sources| - 1], Compile(sources[..|sources| - 1], o);
      match Exclusion(s, o)
      case Some(reason) => b.(excluded := b.excluded + [(s.documentType, reason)])
      case None =>
        b.(branches := b.branches + [Branch(s, WhereOf(Items(s, o)))],
           params := b.params + WhereArgs(Items(s, o)),
           included := b.included + [s.documentType])
  }

  // ----- The builder, pushing as it goes -----

  method BuildScope(cols: seq<string>, scopeFor: string -> Scope) returns (atoms: seq<Atom>, args: seq<string>)
    ensures atoms == AtomsOf(ScopeParts(cols, scopeFor)) && args == ArgsOf(ScopeParts(cols, scopeFor))
  {
    atoms, args := [], [];
    for i := 0 to |cols|
      invariant var ps := ScopeParts(cols[..i], scopeFor); atoms == AtomsOf(ps) && args == ArgsOf(ps)
    {
      var sc := scopeFor(cols[i]);
      ghost var done := ScopeParts(cols[..i], scopeFor);
      assert cols[..i + 1][..i] == cols[..i];
      if sc.Only? {
        ArgsSnoc(done, ScopePart(cols[i], sc.ids));
        if sc.ids == [] {
          atoms := atoms + [Const(Never)];
          args := args + [];
        } else {
          atoms := atoms + [In(Col(cols[i]), |sc.ids|)];
          args := args + sc.ids;
        }
      } else {
        assert done + [] == done;
      }
    }
    assert cols[..|cols|] == cols;
  }

  lemma ArgsSnoc(ps: seq<Part>, p: Part)
    ensures ArgsOf(ps + [p]) == ArgsOf(ps) + p.args && AtomsOf(ps + [p]) == AtomsOf(ps) + [p.atom]
  { assert (ps + [p])[..|ps|] == ps; }

  lemma {:induction false} WarehouseArgs(cols: seq<string>, id: string)
    ensures ArgsOf(WarehouseParts(cols, id)) == seq(|cols|, _ => id)
    ensures AtomsOf(WarehouseParts(cols, id)) == seq(|cols|, i requires 0 <= i < |cols| => Eq(Col(cols[i])))
  {
    if cols != [] {
      var init := cols[..|cols| - 1];
      WarehouseArgs(init, id);
      assert WarehouseParts(cols, id)[..|cols| - 1] == WarehouseParts(init, id);
      assert seq(|cols|, _ => id) == seq(|init|, _ => id) + [id];
    }
  }

  /** An item is pushed when its filter is present. */
  lemma PushItem(items: seq<seq<Part>>, item: seq<Part>)
    ensures WhereOf(items + [item]) == WhereOf(items) + (if item == [] then [] else [AtomsOf(item)])
    ensures WhereArgs(items + [item]) == WhereArgs(items) + ArgsOf(item)
  { assert (items + [item])[..|items|] == items; }

  lemma SinglePart(p: Part)
    ensures ArgsOf([p]) == p.args && AtomsOf([p]) == [p.atom]
  {
    assert [p][..0] == [];
    assert [] + p.args == p.args;
  }

  /** A single comparison, or nothing when its filter is absent. */
  lemma PushOne(items: seq<seq<Part>>, item: seq<Part>, p: Part)
    requires item == [p] || item == []
    ensures WhereOf(items + [item]) == if item == [] then WhereOf(items) else WhereOf(items) + [[p.atom]]
    ensures WhereArgs(items + [item]) == if item == [] then WhereArgs(items) else WhereArgs(items) + p.args
  {
    PushItem(items, item);
    SinglePart(p);
    if item == [] { assert ArgsOf(item) == []; }
  }

  /** The warehouse filter pushes one comparison per column and the id as often. */
  lemma PushWarehouse(items: seq<seq<Part>>, s: Source, o: Opts)
    requires o.warehouseId != "" ==> s.warehouseColumns != []
    ensures var cols, all := s.warehouseColumns, items + [WarehouseItem(s, o)];
            && WhereOf(all) == (if o.warehouseId == "" then WhereOf(items)
                                else WhereOf(items) + [seq(|cols|, i requires 0 <= i < |cols| => Eq(Col(cols[i])))])
            && WhereArgs(all) == (if o.warehouseId == "" then WhereArgs(items) else WhereArgs(items) + seq(|cols|, _ => o.warehouseId))
  {
    PushItem(items, WarehouseItem(s, o));
    if o.warehouseId != "" { WarehouseArgs(s.warehouseColumns, o.warehouseId); }
    else { assert ArgsOf(WarehouseItem(s, o)) == []; }
  }

  method PushColumns(s: Source, o: Opts, raws: Option<seq<string>>) returns (where: seq<seq<Atom>>, args: seq<string>)
    requires raws == if o.statuses == [] then None else Some(RawStatusesFor(s.statusMap, o.statuses))
    requires o.warehouseId != "" ==> s.warehouseColumns != []
    ensures var items := [FixedItem(s)] + [StatusParts(s, o)] + [WarehouseItem(s, o)];
            where == WhereOf(items) && args == WhereArgs(items)
  {
    where, args := [], [];
    if s.extraWhere.Some? { where := where + [[Const(s.extraWhere.value)]]; }
    PushOne([], FixedItem(s), Part(Const(if s.extraWhere.Some? then s.extraWhere.value else Never), []));
    assert [] + [FixedItem(s)] == [FixedItem(s)];
    if raws.Some? { where, args := where + [[In(Col(s.statusColumn), |raws.value|)]], args + raws.value; }
    ghost var r := RawStatusesFor(s.statusMap, o.statuses);
    PushOne([FixedItem(s)], StatusParts(s, o), Part(In(Col(s.statusColumn), |r|), r));
    PushWarehouse([FixedItem(s)] + [StatusParts(s, o)], s, o);
    if o.warehouseId != "" {
      var cols := s.warehouseColumns;
      where := where + [seq(|cols|, i requires 0 <= i < |cols| => Eq(Col(cols[i])))];
      args := args + seq(|cols|, _ => o.warehouseId);
    }
  }

  method PushRanges(s: Source, o: Opts, before: seq<seq<Atom>>, given: seq<string>, ghost items: seq<seq<Part>>)
      returns (where: seq<seq<Atom>>, args: seq<string>)
    requires before == WhereOf(items) && given == WhereArgs(items)
    ensures var all := items + [FromItem(s, o)] + [ToItem(s, o)] + [SearchItem(s, o)];
            where == WhereOf(all) && args == WhereArgs(all)
  {
    where, args := before, given;
    if o.dateFrom != "" { where, args := where + [[AtLeast(DateExpr(s))]], args + [o.dateFrom]; }
    PushOne(items, FromItem(s, o), Part(AtLeast(DateExpr(s)), [o.dateFrom]));
    if o.dateTo != "" { where, args := where + [[AtMost(DateExpr(s))]], args + [o.dateTo]; }
    PushOne(items + [FromItem(s, o)], ToItem(s, o), Part(AtMost(DateExpr(s)), [o.dateTo]));
    if o.search != "" { where, args := where + [[LikeHole(NumberExpr(s))]], args + ["%" + o.search + "%"]; }
    PushOne(items + [FromItem(s, o)] + [ToItem(s, o)], SearchItem(s, o), Part(LikeHole(NumberExpr(s)), ["%" + o.search + "%"]));
  }

  method BuildWhere(s: Source, o: Opts, raws: Option<seq<string>>) returns (where: seq<seq<Atom>>, args: seq<string>)
    requires raws == if o.statuses == [] then None else Some(RawStatusesFor(s.statusMap, o.statuses))
    requires o.warehouseId != "" ==> s.warehouseColumns != []
    ensures where == WhereOf(Items(s, o)) && args == WhereArgs(Items(s, o))
  {
    where, args := PushColumns(s, o, raws);
    ghost var first := [FixedItem(s)] + [StatusParts(s, o)] + [WarehouseItem(s, o)];
    where, args := PushRanges(s, o, where, args, first);
    var atoms, scoped := BuildScope(s.scopeColumns, o.scopeFor);
    PushItem(first + [FromItem(s, o)] + [ToItem(s, o)] + [SearchItem(s, o)], ScopeParts(s.scopeColumns, o.scopeFor));
    args := args + scoped;
    if atoms != [] { where := where + [atoms]; }
  }

  method BuildUnion(sources: seq<Source>, o: Opts) returns (built: Built)
    ensures built == Compile(sources, o)
  {
    var branches: seq<Branch>, params: seq<string> := [], [];
    var included: seq<string>, excluded: seq<(string, string)> := [], [];
    for i := 0 to |sources|
      invariant Built(branches, params, included, excluded) == Compile(sources[..i], o)
    {
      var s := sources[i];
      assert sources[..i + 1][..i] == sources[..i];
      if o.types != [] && s.documentType !in o.types {
        excluded := excluded + [(s.documentType, "not_requested")];
        continue;
      }
      if s.capability.Some? && !o.hasCapability(s.capability.value) {
        excluded := excluded + [(s.documentType, "capability")];
        continue;
      }
      if !o.isAvailable(s.table) || (s.lineTable.Some? && !o.isAvailable(s.lineTable.value)) {
        excluded := excluded + [(s.documentType, "unavailable")];
        continue;
      }
      var raws: Option<seq<string>> := None;
      if o.statuses != [] {
        raws := Some(RawStatusesFor(s.statusMap, o.statuses));
        if raws.value == [] {
          excluded := excluded + [(s.documentType, "status_filter")];
          continue;
        }
      }
      if o.warehouseId != "" && s.warehouseColumns == [] {
        excluded := excluded + [(s.documentType, "warehouse_filter")];
        continue;
      }
      var where, args := BuildWhere(s, o, raws);
      branches, params := branches + [Branch(s, where)], params + args;
      included := included + [s.documentType];
    }
    assert sources[..|sources|] == sources;
    built := Built(branches, params, included, excluded);
  }
}
