/**
 * introspect.ts of the Postgres adapter: from catalog rows to a model whose references all lead somewhere.
 *
 * The rows are taken as they are once read and coerced: any rows, in any number, whatever they name.
 */
module CatalogAssembly {
  import opened Wrappers
  import opened JoinedKeys

  // ---- catalog rows -------------------------------------------------------

  datatype EnumRow = EnumRow(schema: string, name: string, labels: seq<string>)

  /** `wanted`: no partition, readable, and passed by the caller's filter. */
  datatype ClassRow = ClassRow(oid: int, schema: string, name: string, wanted: bool)

  /** The enum a column's type asks for: its own, its domain's base or its array's element; or none. */
  datatype ColumnRow = ColumnRow(oid: int, name: string, enumType: Option<(string, string)>)

  datatype Constraint =
    | Primary
    | Unique
    | Check(parsed: Option<(string, seq<string>)>)
    | Foreign(refSchema: string, refTable: string, refColumns: seq<string>)
    | OtherConstraint

  datatype ConstraintRow = ConstraintRow(oid: int, columns: seq<string>, what: Constraint)

  datatype IndexRow = IndexRow(oid: int, columns: seq<string>, hasExpression: bool, unique: bool, partial: bool)

  datatype Catalog = Catalog(
    schemas: seq<string>,
    enums: seq<EnumRow>,
    classes: seq<ClassRow>,
    columns: seq<ColumnRow>,
    constraints: seq<ConstraintRow>,
    indexes: seq<IndexRow>)

  // ---- the model ----------------------------------------------------------

  datatype Reference = Reference(tableId: string, column: string)

  datatype Column = Column(name: string, isPrimaryKey: bool, isUnique: bool, enumRef: Option<string>, references: Option<Reference>)

  datatype Table = Table(id: string, columns: seq<Column>, primaryKey: seq<string>, uniques: seq<seq<string>>, indexes: seq<IndexRow>)

  datatype Relation = Relation(fromId: string, fromColumns: seq<string>, toId: string, toColumns: seq<string>, oneToOne: bool)

  /** The maps and lists the assembly fills; `order` is the order the tables were put in. */
  datatype Assembly = Assembly(
    tables: map<int, Table>,
    order: seq<int>,
    referenced: set<string>,
    relations: seq<Relation>,
    checkEnums: map<string, seq<string>>)

  datatype Model = Model(tables: map<int, Table>, enums: map<string, seq<string>>, relations: seq<Relation>)

  const ENUM_VALUE_CAP := 256

  function Capped(values: seq<string>): (r: seq<string>)
    ensures values != [] ==> r != []
  {
    if |values| > ENUM_VALUE_CAP then values[..ENUM_VALUE_CAP] else values
  }

  function Qualified(schema: string, name: string): string {
    schema + "." + name
  }

  /** `id.split('.')[0]`. */
  function FirstPart(id: string): string {
    if id == "" || id[0] == '.' then "" else [id[0]] + FirstPart(id[1..])
  }

  // ---- one row ------------------------------------------------------------

  function EnumStep(native: map<string, seq<string>>, row: EnumRow): map<string, seq<string>> {
    if row.labels == [] then native else native[Qualified(row.schema, row.name) := Capped(row.labels)]
  }

  function ClassStep(s: Assembly, row: ClassRow): Assembly {
    if !row.wanted then s
    else s.(tables := s.tables[row.oid := Table(Qualified(row.schema, row.name), [], [], [], [])],
            order := if row.oid in s.order then s.order else s.order + [row.oid])
  }

  function Resolved(native: map<string, seq<string>>, enumType: Option<(string, string)>): Option<string> {
    if enumType.Some? && Qualified(enumType.value.0, enumType.value.1) in native then Some(Qualified(enumType.value.0, enumType.value.1)) else None
  }

  function ColumnStep(native: map<string, seq<string>>, s: Assembly, row: ColumnRow): Assembly {
    if row.oid !in s.tables then s
    else
      var ref := Resolved(native, row.enumType);
      var t := s.tables[row.oid];
      s.(tables := s.tables[row.oid := t.(columns := t.columns + [Column(row.name, false, false, ref, None)])],
         referenced := if ref.Some? then s.referenced + {ref.value} else s.referenced)
  }

  /** `columns.find((c) => c.name === name)`: its place, or the length. */
  function ColumnIndex(columns: seq<Column>, name: string): (i: nat)
    ensures i <= |columns| && (i < |columns| ==> columns[i].name == name)
    ensures forall k :: 0 <= k < i ==> columns[k].name != name
  {
    if columns == [] then 0 else if columns[0].name == name then 0 else 1 + ColumnIndex(columns[1..], name)
  }

  function MarkPrimary(columns: seq<Column>, names: seq<string>): (r: seq<Column>)
    ensures |r| == |columns|
    ensures forall k :: 0 <= k < |r| ==> r[k] == columns[k].(isPrimaryKey := columns[k].isPrimaryKey || columns[k].name in names)
  {
    if columns == [] then []
    else MarkPrimary(columns[..|columns| - 1], names)
         + [columns[|columns| - 1].(isPrimaryKey := columns[|columns| - 1].isPrimaryKey || columns[|columns| - 1].name in names)]
  }

  function CheckStep(s: Assembly, oid: int, name: string, values: seq<string>): Assembly
    requires oid in s.tables
  {
    var t := s.tables[oid];
    var k := ColumnIndex(t.columns, name);
    if k == |t.columns| then s
    else
      var id := Qualified(t.id, name);
      var c := t.columns[k];
      s.(checkEnums := s.checkEnums[id := Capped(values)],
         tables := s.tables[oid := t.(columns := t.columns[k := c.(enumRef := if c.enumRef.None? then Some(id) else c.enumRef)])])
  }

  /** The mirror of a foreign key on its columns, from the place `p` on. */
  function Mirrored(columns: seq<Column>, names: seq<string>, toId: string, refs: seq<string>, p: nat): (r: seq<Column>)
    requires p <= |names|
    ensures |r| == |columns|
    ensures forall k :: 0 <= k < |r| ==> r[k] == columns[k].(references := r[k].references)
    ensures forall k :: 0 <= k < |r| ==> r[k].references == columns[k].references || (r[k].references.Some? && r[k].references.value.tableId == toId)
    decreases |names| - p
  {
    if p == |names| then columns
    else
      var k := ColumnIndex(columns, names[p]);
      if k < |columns| && columns[k].references.None? && p < |refs|
      then Mirrored(columns[k := columns[k].(references := Some(Reference(toId, refs[p])))], names, toId, refs, p + 1)
      else Mirrored(columns, names, toId, refs, p + 1)
  }

  function ForeignStep(ids: set<string>, s: Assembly, oid: int, names: seq<string>, toId: string, refs: seq<string>): Assembly
    requires oid in s.tables
  {
    var t := s.tables[oid];
    if toId !in ids then s
    else s.(relations := s.relations + [Relation(t.id, names, toId, refs, false)],
            tables := s.tables[oid := t.(columns := Mirrored(t.columns, names, toId, refs, 0))])
  }

  function ConstraintStep(ids: set<string>, s: Assembly, row: ConstraintRow): Assembly {
    if row.oid !in s.tables then s
    else
      var t := s.tables[row.oid];
      match row.what
      case Primary => s.(tables := s.tables[row.oid := t.(primaryKey := row.columns, columns := MarkPrimary(t.columns, row.columns))])
      case Unique => s.(tables := s.tables[row.oid := t.(uniques := t.uniques + [row.columns])])
      case Check(parsed) => if parsed.None? then s else CheckStep(s, row.oid, parsed.value.0, parsed.value.1)
      case Foreign(schema, name, refs) => ForeignStep(ids, s, row.oid, row.columns, Qualified(schema, name), refs)
      case OtherConstraint => s
  }

  function IndexStep(s: Assembly, row: IndexRow): Assembly {
    if row.oid !in s.tables then s
    else
      var t := s.tables[row.oid];
      var k := if row.unique && !row.partial && !row.hasExpression && |row.columns| == 1 then ColumnIndex(t.columns, row.columns[0]) else |t.columns|;
      s.(tables := s.tables[row.oid :=
           t.(indexes := t.indexes + [row], columns := if k < |t.columns| then t.columns[k := t.columns[k].(isUnique := true)] else t.columns)])
  }

  // ---- one-to-one ---------------------------------------------------------

  const NUL := '\0'

  function IndexSets(indexes: seq<IndexRow>): seq<seq<string>> {
    if indexes == [] then []
    else IndexSets(indexes[..|indexes| - 1])
         + (var i := indexes[|indexes| - 1]; if i.unique && !i.partial && !i.hasExpression then [i.columns] else [])
  }

  function UniqueSets(t: Table): seq<seq<string>> {
    [t.primaryKey] + t.uniques + IndexSets(t.indexes)
  }

  predicate Covered(t: Table, names: seq<string>) {
    Covers(UniqueSets(t), names, NUL)
  }

  /** The first table of an id, in the order the tables were put in. */
  function TableOf(s: Assembly, order: seq<int>, id: string): Option<Table> {
    if order == [] then None
    else if order[0] in s.tables && s.tables[order[0]].id == id then Some(s.tables[order[0]])
    else TableOf(s, order[1..], id)
  }

  function Refined(s: Assembly, r: Relation): Relation {
    match TableOf(s, s.order, r.fromId)
    case None => r
    case Some(t) => if Covered(t, r.fromColumns) then r.(oneToOne := true) else r
  }

  function RefinedAll(s: Assembly, rs: seq<Relation>): (r: seq<Relation>)
    ensures |r| == |rs| && forall k :: 0 <= k < |r| ==> r[k] == Refined(s, rs[k])
  {
    if rs == [] then [] else RefinedAll(s, rs[..|rs| - 1]) + [Refined(s, rs[|rs| - 1])]
  }

  // ---- every row ----------------------------------------------------------

  function NativeEnums(rows: seq<EnumRow>): map<string, seq<string>> {
    if rows == [] then map[] else EnumStep(NativeEnums(rows[..|rows| - 1]), rows[|rows| - 1])
  }

  function Classes(rows: seq<ClassRow>): Assembly {
    if rows == [] then Assembly(map[], [], {}, [], map[]) else ClassStep(Classes(rows[..|rows| - 1]), rows[|rows| - 1])
  }

  function Columns(native: map<string, seq<string>>, s: Assembly, rows: seq<ColumnRow>): Assembly {
    if rows == [] then s else ColumnStep(native, Columns(native, s, rows[..|rows| - 1]), rows[|rows| - 1])
  }

  function TableIds(s: Assembly): set<string> {
    set oid | oid in s.tables :: s.tables[oid].id
  }

  function Constraints(ids: set<string>, s: Assembly, rows: seq<ConstraintRow>): Assembly {
    if rows == [] then s else ConstraintStep(ids, Constraints(ids, s, rows[..|rows| - 1]), rows[|rows| - 1])
  }

  function Indexes(s: Assembly, rows: seq<IndexRow>): Assembly {
    if rows == [] then s else IndexStep(Indexes(s, rows[..|rows| - 1]), rows[|rows| - 1])
  }

  /** The native enums kept: those a column asks for, and those of the schemas read. */
  function KeptEnums(native: map<string, seq<string>>, referenced: set<string>, schemas: seq<string>): map<string, seq<string>> {
    map id | id in native && (id in referenced || FirstPart(id) in schemas) :: native[id]
  }

  function Assembled(c: Catalog): Assembly {
    var tables := Classes(c.classes);
    Indexes(Constraints(TableIds(tables), Columns(NativeEnums(c.enums), tables, c.columns), c.constraints), c.indexes)
  }

  function ModelOf(c: Catalog): Model {
    var s := Assembled(c);
    Model(s.tables, KeptEnums(NativeEnums(c.enums), s.referenced, c.schemas) + s.checkEnums, RefinedAll(s, s.relations))
  }

  /** The assembly as the source runs it, one loop a query. */
  method IntrospectPostgres(c: Catalog) returns (m: Model)
    ensures m == ModelOf(c)
  {
    hide EnumStep, ClassStep, ColumnStep, ConstraintStep, IndexStep, Refined, KeptEnums, TableIds;
    var native: map<string, seq<string>> := map[];
    var i := 0;
    while i < |c.enums|
      invariant i <= |c.enums| && native == NativeEnums(c.enums[..i])
    {
      assert c.enums[..i + 1][..i] == c.enums[..i];
      native := EnumStep(native, c.enums[i]);
      i := i + 1;
    }
    assert c.enums[..i] == c.enums;
    var s := Assembly(map[], [], {}, [], map[]);
    i := 0;
    while i < |c.classes|
      invariant i <= |c.classes| && s == Classes(c.classes[..i])
    {
      assert c.classes[..i + 1][..i] == c.classes[..i];
      s := ClassStep(s, c.classes[i]);
      i := i + 1;
    }
    assert c.classes[..i] == c.classes;
    var ids := TableIds(s);
    s := AddColumns(native, s, c.columns);
    s := AddConstraints(ids, s, c.constraints);
    s := AddIndexes(s, c.indexes);
    var relations: seq<Relation> := [];
    i := 0;
    while i < |s.relations|
      invariant i <= |s.relations| && relations == RefinedAll(s, s.relations[..i])
    {
      assert s.relations[..i + 1][..i] == s.relations[..i];
      relations := relations + [Refined(s, s.relations[i])];
      i := i + 1;
    }
    assert s.relations[..i] == s.relations;
    m := Model(s.tables, KeptEnums(native, s.referenced, c.schemas) + s.checkEnums, relations);
  }

  method AddColumns(native: map<string, seq<string>>, before: Assembly, rows: seq<ColumnRow>) returns (s: Assembly)
    ensures s == Columns(native, before, rows)
  {
    hide ColumnStep;
    s := before;
    var i := 0;
    while i < |rows|
      invariant i <= |rows| && s == Columns(native, before, rows[..i])
    {
      assert rows[..i + 1][..i] == rows[..i];
      s := ColumnStep(native, s, rows[i]);
      i := i + 1;
    }
    assert rows[..i] == rows;
  }

  method AddConstraints(ids: set<string>, before: Assembly, rows: seq<ConstraintRow>) returns (s: Assembly)
    ensures s == Constraints(ids, before, rows)
  {
    hide ConstraintStep;
    s := before;
    var i := 0;
    while i < |rows|
      invariant i <= |rows| && s == Constraints(ids, before, rows[..i])
    {
      assert rows[..i + 1][..i] == rows[..i];
      s := ConstraintStep(ids, s, rows[i]);
      i := i + 1;
    }
    assert rows[..i] == rows;
  }

  method AddIndexes(before: Assembly, rows: seq<IndexRow>) returns (s: Assembly)
    ensures s == Indexes(before, rows)
  {
    hide IndexStep;
    s := before;
    var i := 0;
    while i < |rows|
      invariant i <= |rows| && s == Indexes(before, rows[..i])
    {
      assert rows[..i + 1][..i] == rows[..i];
      s := IndexStep(s, rows[i]);
      i := i + 1;
    }
    assert rows[..i] == rows;
  }

  // ---- what every step keeps ----------------------------------------------

  /** An enum a column points at is one that will be in the model. */
  predicate EnumOk(native: map<string, seq<string>>, s: Assembly, c: Column) {
    c.enumRef.Some? ==> (c.enumRef.value in native && c.enumRef.value in s.referenced) || c.enumRef.value in s.checkEnums
  }

  predicate ReferenceOk(ids: set<string>, c: Column) {
    c.references.Some? ==> c.references.value.tableId in ids
  }

  ghost predicate ColumnsOk(native: map<string, seq<string>>, ids: set<string>, s: Assembly) {
    forall oid, k :: oid in s.tables && 0 <= k < |s.tables[oid].columns| ==>
      EnumOk(native, s, s.tables[oid].columns[k]) && ReferenceOk(ids, s.tables[oid].columns[k])
  }

  ghost predicate RelationsOk(ids: set<string>, s: Assembly) {
    && (forall k :: 0 <= k < |s.relations| ==> s.relations[k].fromId in ids && s.relations[k].toId in ids)
    && (forall id :: id in s.checkEnums ==> s.checkEnums[id] != [])
    && (forall oid :: oid in s.tables ==> s.tables[oid].id in ids)
  }

  /** The tables are the same, by oid and id. */
  ghost predicate SameTables(a: Assembly, b: Assembly) {
    a.order == b.order && a.tables.Keys == b.tables.Keys && forall oid :: oid in a.tables ==> a.tables[oid].id == b.tables[oid].id
  }

  /** A parsed check always carries a value. */
  predicate ParsedOk(row: ConstraintRow) {
    row.what.Check? && row.what.parsed.Some? ==> row.what.parsed.value.1 != []
  }

  ghost predicate Ok(native: map<string, seq<string>>, ids: set<string>, s: Assembly) {
    ColumnsOk(native, ids, s) && RelationsOk(ids, s)
  }

  /** One table's columns replaced by ones that are in order, the enums only growing. */
  lemma TableReplaced(native: map<string, seq<string>>, ids: set<string>, s: Assembly, t: Assembly, oid: int)
    requires Ok(native, ids, s) && oid in s.tables && t.tables.Keys == s.tables.Keys
    requires forall o :: o in s.tables && o != oid ==> t.tables[o] == s.tables[o]
    requires s.referenced <= t.referenced && s.checkEnums.Keys <= t.checkEnums.Keys
    requires forall k :: 0 <= k < |t.tables[oid].columns| ==> EnumOk(native, t, t.tables[oid].columns[k]) && ReferenceOk(ids, t.tables[oid].columns[k])
    ensures ColumnsOk(native, ids, t)
  {
    forall o, k | o in t.tables && 0 <= k < |t.tables[o].columns|
      ensures EnumOk(native, t, t.tables[o].columns[k]) && ReferenceOk(ids, t.tables[o].columns[k])
    {
      if o != oid {
        assert EnumOk(native, s, s.tables[o].columns[k]);
      }
    }
  }

  lemma ColumnStepOk(native: map<string, seq<string>>, ids: set<string>, s: Assembly, row: ColumnRow)
    requires Ok(native, ids, s)
    ensures var t := ColumnStep(native, s, row); Ok(native, ids, t) && SameTables(s, t)
  {
    if row.oid in s.tables {
      TableReplaced(native, ids, s, ColumnStep(native, s, row), row.oid);
    }
  }

  lemma CheckStepOk(native: map<string, seq<string>>, ids: set<string>, s: Assembly, oid: int, name: string, values: seq<string>)
    requires Ok(native, ids, s) && oid in s.tables && values != []
    ensures var t := CheckStep(s, oid, name, values); Ok(native, ids, t) && SameTables(s, t)
  {
    hide ColumnIndex;
    if ColumnIndex(s.tables[oid].columns, name) < |s.tables[oid].columns| {
      TableReplaced(native, ids, s, CheckStep(s, oid, name, values), oid);
    }
  }

  lemma ForeignStepOk(native: map<string, seq<string>>, ids: set<string>, s: Assembly, oid: int, names: seq<string>, toId: string, refs: seq<string>)
    requires Ok(native, ids, s) && oid in s.tables
    ensures var t := ForeignStep(ids, s, oid, names, toId, refs); Ok(native, ids, t) && SameTables(s, t)
  {
    hide Mirrored;
    if toId in ids {
      TableReplaced(native, ids, s, ForeignStep(ids, s, oid, names, toId, refs), oid);
    }
  }

  lemma ConstraintStepOk(native: map<string, seq<string>>, ids: set<string>, s: Assembly, row: ConstraintRow)
    requires Ok(native, ids, s) && ParsedOk(row)
    ensures var t := ConstraintStep(ids, s, row); Ok(native, ids, t) && SameTables(s, t)
  {
    hide CheckStep, ForeignStep, MarkPrimary;
    if row.oid in s.tables {
      match row.what
      case Primary => TableReplaced(native, ids, s, ConstraintStep(ids, s, row), row.oid);
      case Unique => TableReplaced(native, ids, s, ConstraintStep(ids, s, row), row.oid);
      case Check(parsed) => if parsed.Some? { CheckStepOk(native, ids, s, row.oid, parsed.value.0, parsed.value.1); }
      case Foreign(schema, name, refs) => ForeignStepOk(native, ids, s, row.oid, row.columns, Qualified(schema, name), refs);
      case OtherConstraint =>
    }
  }

  lemma IndexStepOk(native: map<string, seq<string>>, ids: set<string>, s: Assembly, row: IndexRow)
    requires Ok(native, ids, s)
    ensures var t := IndexStep(s, row); Ok(native, ids, t) && SameTables(s, t)
  {
    hide ColumnIndex;
    if row.oid in s.tables {
      TableReplaced(native, ids, s, IndexStep(s, row), row.oid);
    }
  }

  lemma {:induction false} ClassesOk(native: map<string, seq<string>>, rows: seq<ClassRow>)
    ensures var s := Classes(rows); Ok(native, TableIds(s), s) && s.relations == [] && forall oid :: oid in s.tables ==> s.tables[oid].columns == []
    decreases |rows|
  {
    if rows != [] {
      ClassesOk(native, rows[..|rows| - 1]);
    }
  }

  lemma {:induction false} ColumnsKeepOk(native: map<string, seq<string>>, ids: set<string>, s: Assembly, rows: seq<ColumnRow>)
    requires Ok(native, ids, s)
    ensures var t := Columns(native, s, rows); Ok(native, ids, t) && SameTables(s, t)
    decreases |rows|
  {
    hide Ok, ColumnStep;
    if rows != [] {
      ColumnsKeepOk(native, ids, s, rows[..|rows| - 1]);
      ColumnStepOk(native, ids, Columns(native, s, rows[..|rows| - 1]), rows[|rows| - 1]);
    }
  }

  lemma {:induction false} ConstraintsKeepOk(native: map<string, seq<string>>, ids: set<string>, s: Assembly, rows: seq<ConstraintRow>)
    requires Ok(native, ids, s) && forall k :: 0 <= k < |rows| ==> ParsedOk(rows[k])
    ensures var t := Constraints(ids, s, rows); Ok(native, ids, t) && SameTables(s, t)
    decreases |rows|
  {
    hide Ok, ConstraintStep, ParsedOk;
    if rows != [] {
      ConstraintsKeepOk(native, ids, s, rows[..|rows| - 1]);
      ConstraintStepOk(native, ids, Constraints(ids, s, rows[..|rows| - 1]), rows[|rows| - 1]);
    }
  }

  lemma {:induction false} IndexesKeepOk(native: map<string, seq<string>>, ids: set<string>, s: Assembly, rows: seq<IndexRow>)
    requires Ok(native, ids, s)
    ensures var t := Indexes(s, rows); Ok(native, ids, t) && SameTables(s, t)
    decreases |rows|
  {
    hide Ok, IndexStep;
    if rows != [] {
      IndexesKeepOk(native, ids, s, rows[..|rows| - 1]);
      IndexStepOk(native, ids, Indexes(s, rows[..|rows| - 1]), rows[|rows| - 1]);
    }
  }

  lemma {:induction false} NativeNotEmpty(rows: seq<EnumRow>)
    ensures forall id :: id in NativeEnums(rows) ==> NativeEnums(rows)[id] != []
    decreases |rows|
  {
    if rows != [] {
      NativeNotEmpty(rows[..|rows| - 1]);
    }
  }

  // ---- the theorems -------------------------------------------------------

  /** Every reference of a model leads somewhere in it, and no enum of it is empty. */
  ghost predicate Closed(m: Model) {
    && (forall oid, k :: oid in m.tables && 0 <= k < |m.tables[oid].columns| && m.tables[oid].columns[k].enumRef.Some? ==>
          m.tables[oid].columns[k].enumRef.value in m.enums)
    && (forall oid, k :: oid in m.tables && 0 <= k < |m.tables[oid].columns| && m.tables[oid].columns[k].references.Some? ==>
          exists o :: o in m.tables && m.tables[o].id == m.tables[oid].columns[k].references.value.tableId)
    && (forall k :: 0 <= k < |m.relations| ==>
          && (exists o :: o in m.tables && m.tables[o].id == m.relations[k].fromId)
          && (exists o :: o in m.tables && m.tables[o].id == m.relations[k].toId))
    && (forall id :: id in m.enums ==> m.enums[id] != [])
  }

  lemma AssembledOk(c: Catalog)
    requires forall k :: 0 <= k < |c.constraints| ==> ParsedOk(c.constraints[k])
    ensures var s, ids := Assembled(c), TableIds(Classes(c.classes));
            Ok(NativeEnums(c.enums), ids, s) && forall id :: id in ids ==> exists o :: o in s.tables && s.tables[o].id == id
  {
    hide Ok, ParsedOk, NativeEnums, Classes, Columns, Constraints, Indexes;
    var native, tables := NativeEnums(c.enums), Classes(c.classes);
    var ids := TableIds(tables);
    ClassesOk(native, c.classes);
    ColumnsKeepOk(native, ids, tables, c.columns);
    var columns := Columns(native, tables, c.columns);
    ConstraintsKeepOk(native, ids, columns, c.constraints);
    var constraints := Constraints(ids, columns, c.constraints);
    IndexesKeepOk(native, ids, constraints, c.indexes);
    var s := Indexes(constraints, c.indexes);
    forall id | id in ids
      ensures exists o :: o in s.tables && s.tables[o].id == id
    {
      var o :| o in tables.tables && tables.tables[o].id == id;
      assert o in s.tables && s.tables[o].id == id;
    }
  }

  /** Whatever the catalog holds, the model is closed. */
  lemma ModelIsClosed(c: Catalog)
    requires forall k :: 0 <= k < |c.constraints| ==> ParsedOk(c.constraints[k])
    ensures Closed(ModelOf(c))
  {
    hide Assembled, NativeEnums, ParsedOk, Refined, FirstPart;
    AssembledOk(c);
    NativeNotEmpty(c.enums);
    RefinedKeepsEnds(Assembled(c));
  }

  lemma RefinedKeepsEnds(s: Assembly)
    ensures forall k :: 0 <= k < |s.relations| ==>
      Refined(s, s.relations[k]) == s.relations[k].(oneToOne := Refined(s, s.relations[k]).oneToOne)
  {
  }
}
