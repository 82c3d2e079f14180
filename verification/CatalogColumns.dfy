/** Of the assembled Postgres model: each column, each enum and each unique set, from the catalog rows it comes from. */
module CatalogColumns {
  import opened Wrappers
  import opened JoinedKeys
  import opened CatalogAssembly
  import opened CatalogTheorems

  // ---- native enums -------------------------------------------------------

  function Cap(labels: seq<string>): seq<string> {
    if |labels| <= 256 then labels else labels[..256]
  }

  /** The labels of an enum: those of the last row of its name that has any, the first 256 of them. */
  function Labels(enums: seq<EnumRow>, id: string): Option<seq<string>> {
    if enums == [] then None
    else
      var last := enums[|enums| - 1];
      if last.labels != [] && last.schema + "." + last.name == id then Some(Cap(last.labels)) else Labels(enums[..|enums| - 1], id)
  }

  lemma {:induction false} NativeIsLabels(enums: seq<EnumRow>, id: string)
    ensures id in NativeEnums(enums) <==> Labels(enums, id).Some?
    ensures id in NativeEnums(enums) ==> NativeEnums(enums)[id] == Labels(enums, id).value
  {
    if enums != [] {
      NativeIsLabels(enums[..|enums| - 1], id);
    }
  }

  /** The native enum a column points at: the one its type names, if that has labels. */
  function NativeRef(enums: seq<EnumRow>, row: ColumnRow): Option<string> {
    match row.enumType
    case None => None
    case Some((schema, name)) => if Labels(enums, schema + "." + name).Some? then Some(schema + "." + name) else None
  }

  lemma ResolvedIs(enums: seq<EnumRow>, row: ColumnRow)
    ensures Resolved(NativeEnums(enums), row.enumType) == NativeRef(enums, row)
  {
    hide NativeEnums, Labels;
    if row.enumType.Some? {
      NativeIsLabels(enums, row.enumType.value.0 + "." + row.enumType.value.1);
    }
  }

  // ---- the columns as they are read ---------------------------------------

  /** The column rows of one table, in order. */
  function OwnRows(rows: seq<ColumnRow>, oid: int): seq<ColumnRow> {
    if rows == [] then []
    else OwnRows(rows[..|rows| - 1], oid) + (if rows[|rows| - 1].oid == oid then [rows[|rows| - 1]] else [])
  }

  /** The columns before any constraint or index is read. */
  ghost predicate Bare(enums: seq<EnumRow>, columns: seq<Column>, rows: seq<ColumnRow>) {
    && |columns| == |rows|
    && forall k :: 0 <= k < |rows| ==> columns[k] == Column(rows[k].name, false, false, NativeRef(enums, rows[k]), None)
  }

  lemma {:induction false} ColumnsAreBare(enums: seq<EnumRow>, s: Assembly, rows: seq<ColumnRow>, oid: int)
    requires oid in s.tables && s.tables[oid].columns == []
    ensures var t := Columns(NativeEnums(enums), s, rows);
            && oid in t.tables && Bare(enums, t.tables[oid].columns, OwnRows(rows, oid))
            && t.tables[oid] == s.tables[oid].(columns := t.tables[oid].columns)
    decreases |rows|
  {
    if rows == [] {
      assert OwnRows(rows, oid) == [];
    } else {
      hide NativeEnums, Resolved, NativeRef, ColumnStep;
      var before, row := Columns(NativeEnums(enums), s, rows[..|rows| - 1]), rows[|rows| - 1];
      ColumnsAreBare(enums, s, rows[..|rows| - 1], oid);
      ResolvedIs(enums, row);
      ColumnRead(NativeEnums(enums), before, row, oid);
      assert before.tables[oid].columns + [] == before.tables[oid].columns;
    }
  }

  lemma ColumnRead(native: map<string, seq<string>>, s: Assembly, row: ColumnRow, oid: int)
    requires oid in s.tables
    ensures var t := ColumnStep(native, s, row);
            && oid in t.tables
            && t.tables[oid] == s.tables[oid].(columns := s.tables[oid].columns
                 + (if row.oid == oid then [Column(row.name, false, false, Resolved(native, row.enumType), None)] else []))
  {
    hide Resolved;
    assert s.tables[oid].columns + [] == s.tables[oid].columns;
  }

  // ---- what a constraint does to a column ---------------------------------

  /** The first column of its name, the one every look-up by name finds. */
  predicate IsFirst(columns: seq<Column>, k: nat) {
    k < |columns| && forall j :: 0 <= j < k ==> columns[j].name != columns[k].name
  }

  lemma FirstIsFound(columns: seq<Column>, k: nat, name: string)
    requires k < |columns|
    ensures ColumnIndex(columns, name) == k <==> columns[k].name == name && IsFirst(columns, k)
  {
    hide ColumnIndex;
    var i := ColumnIndex(columns, name);
    if columns[k].name == name && IsFirst(columns, k) {
      assert i <= k;
    }
  }

  /** The place of the other table a foreign key's columns give a name, from the place `p` on. */
  function RefAt(names: seq<string>, refs: seq<string>, toId: string, name: string, p: nat): Option<Reference>
    requires p <= |names|
    decreases |names| - p
  {
    if p == |names| then None
    else if names[p] == name && p < |refs| then Some(Reference(toId, refs[p]))
    else RefAt(names, refs, toId, name, p + 1)
  }

  lemma {:induction false} MirroredIs(columns: seq<Column>, names: seq<string>, toId: string, refs: seq<string>, p: nat, k: nat)
    requires p <= |names| && k < |columns|
    ensures Mirrored(columns, names, toId, refs, p)[k] ==
            columns[k].(references := if columns[k].references.None? && IsFirst(columns, k) then RefAt(names, refs, toId, columns[k].name, p) else columns[k].references)
    decreases |names| - p
  {
    hide ColumnIndex;
    if p < |names| {
      var i := ColumnIndex(columns, names[p]);
      FirstIsFound(columns, k, names[p]);
      if i < |columns| && columns[i].references.None? && p < |refs| {
        var more := columns[i := columns[i].(references := Some(Reference(toId, refs[p])))];
        assert forall j :: 0 <= j < |columns| ==> more[j].name == columns[j].name;
        MirroredIs(more, names, toId, refs, p + 1, k);
      } else {
        MirroredIs(columns, names, toId, refs, p + 1, k);
      }
    }
  }

  /** What one constraint says of a column: the enum of a parsed check, and the place a foreign key points it at. */
  function CheckRef(row: ConstraintRow, oid: int, tableId: string, name: string): Option<string> {
    if row.oid == oid && row.what.Check? && row.what.parsed.Some? && row.what.parsed.value.0 == name then Some(tableId + "." + name) else None
  }

  function ForeignRef(ids: set<string>, row: ConstraintRow, oid: int, name: string): Option<Reference> {
    if row.oid == oid && row.what.Foreign? && row.what.refSchema + "." + row.what.refTable in ids
    then RefAt(row.columns, row.what.refColumns, row.what.refSchema + "." + row.what.refTable, name, 0) else None
  }

  function Or<T>(a: Option<T>, b: Option<T>): Option<T> {
    if a.Some? then a else b
  }

  ghost predicate ColumnStays(ids: set<string>, row: ConstraintRow, oid: int, tableId: string, first: bool, before: Column, after: Column) {
    && after.name == before.name && after.isUnique == before.isUnique
    && after.enumRef == Or(before.enumRef, if first then CheckRef(row, oid, tableId, before.name) else None)
    && after.references == Or(before.references, if first then ForeignRef(ids, row, oid, before.name) else None)
  }

  lemma ConstraintOnColumn(ids: set<string>, s: Assembly, row: ConstraintRow, oid: int, k: nat)
    requires oid in s.tables && k < |s.tables[oid].columns|
    ensures var t, before := ConstraintStep(ids, s, row), s.tables[oid];
            && oid in t.tables && t.tables[oid].id == before.id && |t.tables[oid].columns| == |before.columns|
            && ColumnStays(ids, row, oid, before.id, IsFirst(before.columns, k), before.columns[k], t.tables[oid].columns[k])
  {
    hide ColumnIndex, Mirrored, MarkPrimary, IsFirst, RefAt;
    var columns := s.tables[oid].columns;
    if row.oid == oid {
      match row.what
      case Check(parsed) =>
        if parsed.Some? {
          FirstIsFound(columns, k, parsed.value.0);
          CheckOnColumn(s, oid, parsed.value.0, parsed.value.1, k);
        }
      case Foreign(schema, name, refs) =>
        MirroredIs(columns, row.columns, Qualified(schema, name), refs, 0, k);
      case _ =>
    }
  }

  lemma CheckOnColumn(s: Assembly, oid: int, name: string, values: seq<string>, k: nat)
    requires oid in s.tables && k < |s.tables[oid].columns|
    ensures var t, c := CheckStep(s, oid, name, values), s.tables[oid].columns[k];
            && oid in t.tables && |t.tables[oid].columns| == |s.tables[oid].columns| && t.tables[oid].id == s.tables[oid].id
            && t.tables[oid].columns[k] ==
               c.(enumRef := Or(c.enumRef, if ColumnIndex(s.tables[oid].columns, name) == k then Some(s.tables[oid].id + "." + name) else None))
  {
    hide ColumnIndex;
  }

  /** The first that says anything, of all the constraints in order. */
  function ChecksRef(rows: seq<ConstraintRow>, oid: int, tableId: string, name: string): Option<string> {
    if rows == [] then None
    else Or(ChecksRef(rows[..|rows| - 1], oid, tableId, name), CheckRef(rows[|rows| - 1], oid, tableId, name))
  }

  function ForeignsRef(ids: set<string>, rows: seq<ConstraintRow>, oid: int, name: string): Option<Reference> {
    if rows == [] then None
    else Or(ForeignsRef(ids, rows[..|rows| - 1], oid, name), ForeignRef(ids, rows[|rows| - 1], oid, name))
  }

  lemma FirstByNames(a: seq<Column>, b: seq<Column>, k: nat)
    requires |a| == |b| && forall j :: 0 <= j < |a| ==> a[j].name == b[j].name
    ensures IsFirst(a, k) == IsFirst(b, k)
  {
  }

  lemma {:induction false} ConstraintsOnColumn(ids: set<string>, s: Assembly, rows: seq<ConstraintRow>, oid: int, k: nat)
    requires oid in s.tables && k < |s.tables[oid].columns|
    ensures var t, before := Constraints(ids, s, rows), s.tables[oid];
            && oid in t.tables && t.tables[oid].id == before.id && SameNames(t.tables[oid].columns, before.columns)
            && var c, first := before.columns[k], IsFirst(before.columns, k);
               && t.tables[oid].columns[k].isUnique == c.isUnique
               && t.tables[oid].columns[k].enumRef == Or(c.enumRef, if first then ChecksRef(rows, oid, before.id, c.name) else None)
               && t.tables[oid].columns[k].references == Or(c.references, if first then ForeignsRef(ids, rows, oid, c.name) else None)
    decreases |rows|
  {
    hide ConstraintStep, IsFirst, CheckRef, ForeignRef;
    if rows != [] {
      var init, row := rows[..|rows| - 1], rows[|rows| - 1];
      ConstraintsOnColumn(ids, s, init, oid, k);
      var mid := Constraints(ids, s, init);
      ConstraintOnColumn(ids, mid, row, oid, k);
      NamesStay(ids, mid, row, oid);
      FirstByNames(mid.tables[oid].columns, s.tables[oid].columns, k);
    }
  }

  lemma NamesStay(ids: set<string>, s: Assembly, row: ConstraintRow, oid: int)
    requires oid in s.tables
    ensures var t := ConstraintStep(ids, s, row); oid in t.tables && SameNames(t.tables[oid].columns, s.tables[oid].columns)
  {
    hide ConstraintStep;
    ConstraintOnTable(ids, s, row, oid);
  }

  // ---- indexes ------------------------------------------------------------

  /** A whole and plain unique index of just this column. */
  predicate IndexesAlone(row: IndexRow, oid: int, name: string) {
    row.oid == oid && row.unique && !row.partial && !row.hasExpression && row.columns == [name]
  }

  predicate AnyAlone(rows: seq<IndexRow>, oid: int, name: string) {
    exists i :: 0 <= i < |rows| && IndexesAlone(rows[i], oid, name)
  }

  lemma IndexOnColumn(s: Assembly, row: IndexRow, oid: int, k: nat)
    requires oid in s.tables && k < |s.tables[oid].columns|
    ensures var t, before := IndexStep(s, row), s.tables[oid];
            && oid in t.tables && t.tables[oid].id == before.id && SameNames(t.tables[oid].columns, before.columns)
            && var c := before.columns[k];
               t.tables[oid].columns[k] == c.(isUnique := c.isUnique || (IsFirst(before.columns, k) && IndexesAlone(row, oid, c.name)))
  {
    hide ColumnIndex, IsFirst;
    if |row.columns| == 1 {
      FirstIsFound(s.tables[oid].columns, k, row.columns[0]);
      assert row.columns == [row.columns[0]];
    }
  }

  lemma {:induction false} IndexesOnColumn(s: Assembly, rows: seq<IndexRow>, oid: int, k: nat)
    requires oid in s.tables && k < |s.tables[oid].columns|
    ensures var t, before := Indexes(s, rows), s.tables[oid];
            && oid in t.tables && t.tables[oid].id == before.id && SameNames(t.tables[oid].columns, before.columns)
            && var c := before.columns[k];
               t.tables[oid].columns[k] ==
                 c.(isUnique := c.isUnique || (IsFirst(before.columns, k) && AnyAlone(rows, oid, c.name)))
    decreases |rows|
  {
    hide IndexStep, IsFirst, IndexesAlone, AnyAlone;
    NoneAlone(oid, s.tables[oid].columns[k].name);
    if rows != [] {
      var init, row := rows[..|rows| - 1], rows[|rows| - 1];
      IndexesOnColumn(s, init, oid, k);
      var mid := Indexes(s, init);
      IndexOnColumn(mid, row, oid, k);
      FirstByNames(mid.tables[oid].columns, s.tables[oid].columns, k);
      AnyMore(rows, oid, s.tables[oid].columns[k].name);
    }
  }

  lemma NoneAlone(oid: int, name: string)
    ensures !AnyAlone([], oid, name)
  {
  }

  lemma AnyMore(rows: seq<IndexRow>, oid: int, name: string)
    requires rows != []
    ensures AnyAlone(rows, oid, name) <==> AnyAlone(rows[..|rows| - 1], oid, name) || IndexesAlone(rows[|rows| - 1], oid, name)
  {
    hide IndexesAlone;
    var init := rows[..|rows| - 1];
    assert forall i :: 0 <= i < |init| ==> init[i] == rows[i];
  }

  // ---- the whole column ---------------------------------------------------

  /** The first row of its name. */
  predicate FirstOfName(rows: seq<ColumnRow>, k: nat) {
    k < |rows| && forall j :: 0 <= j < k ==> rows[j].name != rows[k].name
  }

  /**
   * The `k`-th column of a table in the model, from its rows: its name; the enum its type names if that has labels, or else the
   * first parsed check of it; the place the first foreign key of it points at, at its own position; and whether a whole and plain
   * unique index is of it alone. Of several columns of one name only the first is found by constraints and indexes.
   */
  lemma ColumnIsItsRows(c: Catalog, oid: int, k: nat)
    requires oid in Classes(c.classes).tables && k < |OwnRows(c.columns, oid)|
    ensures oid in ModelOf(c).tables && |ModelOf(c).tables[oid].columns| == |OwnRows(c.columns, oid)|
    ensures var row, t := OwnRows(c.columns, oid)[k], ModelOf(c).tables[oid];
            var first, ids := FirstOfName(OwnRows(c.columns, oid), k), TableIds(Classes(c.classes));
            && t.columns[k].name == row.name
            && t.columns[k].enumRef == Or(NativeRef(c.enums, row), if first then ChecksRef(c.constraints, oid, t.id, row.name) else None)
            && t.columns[k].references == (if first then ForeignsRef(ids, c.constraints, oid, row.name) else None)
            && t.columns[k].isUnique == (first && AnyAlone(c.indexes, oid, row.name))
  {
    hide Classes, Columns, Constraints, Indexes, NativeEnums, KeptEnums, RefinedAll, OwnRows, NativeRef, ChecksRef, ForeignsRef, AnyAlone, TableIds;
    var tables, rows := Classes(c.classes), OwnRows(c.columns, oid);
    ClassTables(c.classes, oid);
    ColumnsAreBare(c.enums, tables, c.columns, oid);
    var columns := Columns(NativeEnums(c.enums), tables, c.columns);
    ConstraintsOnColumn(TableIds(tables), columns, c.constraints, oid, k);
    var constraints := Constraints(TableIds(tables), columns, c.constraints);
    IndexesOnColumn(constraints, c.indexes, oid, k);
    FirstByNames(constraints.tables[oid].columns, columns.tables[oid].columns, k);
    assert IsFirst(columns.tables[oid].columns, k) <==> FirstOfName(rows, k);
  }

  // ---- tables, unique constraints and indexes -----------------------------

  /** The id of a table: of the last row that is wanted. */
  function IdOf(rows: seq<ClassRow>, oid: int): Option<string> {
    if rows == [] then None
    else if rows[|rows| - 1].wanted && rows[|rows| - 1].oid == oid then Some(rows[|rows| - 1].schema + "." + rows[|rows| - 1].name)
    else IdOf(rows[..|rows| - 1], oid)
  }

  function UniqueRows(rows: seq<ConstraintRow>, oid: int): seq<seq<string>> {
    if rows == [] then []
    else UniqueRows(rows[..|rows| - 1], oid) + (if rows[|rows| - 1].oid == oid && rows[|rows| - 1].what.Unique? then [rows[|rows| - 1].columns] else [])
  }

  function IndexRows(rows: seq<IndexRow>, oid: int): seq<IndexRow> {
    if rows == [] then []
    else IndexRows(rows[..|rows| - 1], oid) + (if rows[|rows| - 1].oid == oid then [rows[|rows| - 1]] else [])
  }

  lemma {:induction false} ClassesAre(rows: seq<ClassRow>, oid: int)
    ensures oid in Classes(rows).tables <==> IdOf(rows, oid).Some?
    ensures oid in Classes(rows).tables ==> Classes(rows).tables[oid] == Table(IdOf(rows, oid).value, [], [], [], [])
  {
    if rows != [] {
      ClassesAre(rows[..|rows| - 1], oid);
    }
  }

  lemma {:induction false} ColumnsTables(native: map<string, seq<string>>, s: Assembly, rows: seq<ColumnRow>, oid: int)
    ensures var t := Columns(native, s, rows);
            (oid in t.tables <==> oid in s.tables) && (oid in s.tables ==> t.tables[oid] == s.tables[oid].(columns := t.tables[oid].columns))
    decreases |rows|
  {
    if rows != [] {
      ColumnsTables(native, s, rows[..|rows| - 1], oid);
    }
  }

  lemma ConstraintUniques(ids: set<string>, s: Assembly, row: ConstraintRow, oid: int)
    ensures var t := ConstraintStep(ids, s, row);
            && (oid in t.tables <==> oid in s.tables)
            && (oid in s.tables ==>
                  && t.tables[oid].id == s.tables[oid].id && t.tables[oid].indexes == s.tables[oid].indexes
                  && t.tables[oid].uniques == s.tables[oid].uniques + (if row.oid == oid && row.what.Unique? then [row.columns] else []))
  {
    hide ColumnIndex, Mirrored, MarkPrimary;
    if oid in s.tables {
      assert s.tables[oid].uniques + [] == s.tables[oid].uniques;
    }
  }

  lemma {:induction false} ConstraintsUniques(ids: set<string>, s: Assembly, rows: seq<ConstraintRow>, oid: int)
    ensures var t := Constraints(ids, s, rows);
            && (oid in t.tables <==> oid in s.tables)
            && (oid in s.tables ==>
                  && t.tables[oid].id == s.tables[oid].id && t.tables[oid].indexes == s.tables[oid].indexes
                  && t.tables[oid].uniques == s.tables[oid].uniques + UniqueRows(rows, oid))
    decreases |rows|
  {
    hide ConstraintStep;
    if rows != [] {
      ConstraintsUniques(ids, s, rows[..|rows| - 1], oid);
      ConstraintUniques(ids, Constraints(ids, s, rows[..|rows| - 1]), rows[|rows| - 1], oid);
    }
    if oid in s.tables {
      assert s.tables[oid].uniques + [] == s.tables[oid].uniques;
    }
  }

  lemma {:induction false} IndexesAre(s: Assembly, rows: seq<IndexRow>, oid: int)
    ensures var t := Indexes(s, rows);
            && (oid in t.tables <==> oid in s.tables)
            && (oid in s.tables ==>
                  && t.tables[oid].id == s.tables[oid].id && t.tables[oid].uniques == s.tables[oid].uniques
                  && t.tables[oid].indexes == s.tables[oid].indexes + IndexRows(rows, oid))
    decreases |rows|
  {
    hide ColumnIndex;
    if rows != [] {
      IndexesAre(s, rows[..|rows| - 1], oid);
      IndexAdded(Indexes(s, rows[..|rows| - 1]), rows[|rows| - 1], oid);
    }
    if oid in s.tables {
      assert s.tables[oid].indexes + [] == s.tables[oid].indexes;
    }
  }

  lemma IndexAdded(s: Assembly, row: IndexRow, oid: int)
    ensures var t := IndexStep(s, row);
            && (oid in t.tables <==> oid in s.tables)
            && (oid in s.tables ==>
                  && t.tables[oid].id == s.tables[oid].id && t.tables[oid].uniques == s.tables[oid].uniques
                  && t.tables[oid].indexes == s.tables[oid].indexes + (if row.oid == oid then [row] else []))
  {
    hide ColumnIndex;
    if oid in s.tables {
      assert s.tables[oid].indexes + [] == s.tables[oid].indexes;
    }
  }

  /** Which tables the model has, and the id, the unique constraints and the indexes of each: those of its rows, in order. */
  lemma TablesAreTheirRows(c: Catalog, oid: int)
    ensures oid in ModelOf(c).tables <==> IdOf(c.classes, oid).Some?
    ensures oid in ModelOf(c).tables ==>
              var t := ModelOf(c).tables[oid];
              Some(t.id) == IdOf(c.classes, oid) && t.uniques == UniqueRows(c.constraints, oid) && t.indexes == IndexRows(c.indexes, oid)
  {
    hide Classes, Columns, Constraints, Indexes, NativeEnums, KeptEnums, RefinedAll, TableIds, IdOf, UniqueRows, IndexRows;
    var tables := Classes(c.classes);
    ClassesAre(c.classes, oid);
    ColumnsTables(NativeEnums(c.enums), tables, c.columns, oid);
    var columns := Columns(NativeEnums(c.enums), tables, c.columns);
    ConstraintsUniques(TableIds(tables), columns, c.constraints, oid);
    IndexesAre(Constraints(TableIds(tables), columns, c.constraints), c.indexes, oid);
    assert [] + UniqueRows(c.constraints, oid) == UniqueRows(c.constraints, oid) && [] + IndexRows(c.indexes, oid) == IndexRows(c.indexes, oid);
  }

  // ---- the enums of the model ---------------------------------------------

  ghost predicate HasColumn(columns: seq<Column>, name: string) {
    exists k :: 0 <= k < |columns| && columns[k].name == name
  }

  /** The parsed check that names an enum: of a column of a table in the model. */
  ghost predicate ChecksFor(tables: map<int, Table>, row: ConstraintRow, id: string) {
    && row.oid in tables && row.what.Check? && row.what.parsed.Some?
    && HasColumn(tables[row.oid].columns, row.what.parsed.value.0)
    && tables[row.oid].id + "." + row.what.parsed.value.0 == id
  }

  /** The values of an enum made of a check: those of the last one, the first 256 of them. */
  ghost function CheckLabels(tables: map<int, Table>, rows: seq<ConstraintRow>, id: string): Option<seq<string>> {
    if rows == [] then None
    else if ChecksFor(tables, rows[|rows| - 1], id) then Some(Cap(rows[|rows| - 1].what.parsed.value.1))
    else CheckLabels(tables, rows[..|rows| - 1], id)
  }

  /** The same tables, as far as a check looks at them. */
  ghost predicate Alike(a: map<int, Table>, b: map<int, Table>) {
    a.Keys == b.Keys && forall oid :: oid in a ==> a[oid].id == b[oid].id && SameNames(a[oid].columns, b[oid].columns)
  }

  lemma AlikeChecks(a: map<int, Table>, b: map<int, Table>, row: ConstraintRow, id: string)
    requires Alike(a, b)
    ensures ChecksFor(a, row, id) == ChecksFor(b, row, id)
  {
    if row.oid in a && row.what.Check? && row.what.parsed.Some? {
      NamesHave(a[row.oid].columns, b[row.oid].columns, row.what.parsed.value.0);
    }
  }

  lemma NamesHave(a: seq<Column>, b: seq<Column>, name: string)
    requires SameNames(a, b)
    ensures HasColumn(a, name) == HasColumn(b, name)
  {
    if HasColumn(a, name) {
      var k :| 0 <= k < |a| && a[k].name == name;
      assert b[k].name == name;
    }
    if HasColumn(b, name) {
      var k :| 0 <= k < |b| && b[k].name == name;
      assert a[k].name == name;
    }
  }

  lemma {:induction false} AlikeLabels(a: map<int, Table>, b: map<int, Table>, rows: seq<ConstraintRow>, id: string)
    requires Alike(a, b)
    ensures CheckLabels(a, rows, id) == CheckLabels(b, rows, id)
    decreases |rows|
  {
    hide ChecksFor, Alike;
    if rows != [] {
      AlikeChecks(a, b, rows[|rows| - 1], id);
      AlikeLabels(a, b, rows[..|rows| - 1], id);
    }
  }

  lemma ColumnFound(columns: seq<Column>, name: string)
    ensures HasColumn(columns, name) <==> ColumnIndex(columns, name) < |columns|
  {
    hide ColumnIndex;
  }

  lemma ConstraintEnum(ids: set<string>, s: Assembly, row: ConstraintRow, id: string)
    ensures var t := ConstraintStep(ids, s, row);
            && t.referenced == s.referenced
            && (if ChecksFor(s.tables, row, id) then id in t.checkEnums && t.checkEnums[id] == Cap(row.what.parsed.value.1)
                else (id in t.checkEnums <==> id in s.checkEnums) && (id in s.checkEnums ==> t.checkEnums[id] == s.checkEnums[id]))
  {
    hide ColumnIndex, Mirrored, MarkPrimary, HasColumn;
    if row.oid in s.tables && row.what.Check? && row.what.parsed.Some? {
      ColumnFound(s.tables[row.oid].columns, row.what.parsed.value.0);
    }
  }

  lemma ConstraintAlike(ids: set<string>, s: Assembly, row: ConstraintRow)
    ensures Alike(s.tables, ConstraintStep(ids, s, row).tables)
  {
    hide ConstraintStep, SameNames;
    forall oid
      ensures oid in ConstraintStep(ids, s, row).tables <==> oid in s.tables
      ensures oid in s.tables ==> ConstraintStep(ids, s, row).tables[oid].id == s.tables[oid].id && SameNames(s.tables[oid].columns, ConstraintStep(ids, s, row).tables[oid].columns)
    {
      ConstraintUniques(ids, s, row, oid);
      if oid in s.tables {
        NamesStay(ids, s, row, oid);
        NamesBack(ConstraintStep(ids, s, row).tables[oid].columns, s.tables[oid].columns);
      }
    }
  }

  lemma NamesBack(a: seq<Column>, b: seq<Column>)
    requires SameNames(a, b)
    ensures SameNames(b, a)
  {
  }

  lemma AlikeTransitive(a: map<int, Table>, b: map<int, Table>, c: map<int, Table>)
    requires Alike(a, b) && Alike(b, c)
    ensures Alike(a, c)
  {
  }

  lemma AlikeItself(a: map<int, Table>)
    ensures Alike(a, a)
  {
  }

  lemma {:induction false} ConstraintsEnums(ids: set<string>, s: Assembly, rows: seq<ConstraintRow>, id: string)
    requires s.checkEnums == map[]
    ensures var t := Constraints(ids, s, rows);
            && Alike(s.tables, t.tables) && t.referenced == s.referenced
            && (id in t.checkEnums <==> CheckLabels(s.tables, rows, id).Some?)
            && (id in t.checkEnums ==> t.checkEnums[id] == CheckLabels(s.tables, rows, id).value)
    decreases |rows|
  {
    hide ConstraintStep, ChecksFor, Alike;
    AlikeItself(s.tables);
    if rows != [] {
      var init, row := rows[..|rows| - 1], rows[|rows| - 1];
      ConstraintsEnums(ids, s, init, id);
      var mid := Constraints(ids, s, init);
      ConstraintEnum(ids, mid, row, id);
      AlikeChecks(s.tables, mid.tables, row, id);
      ConstraintAlike(ids, mid, row);
      AlikeTransitive(s.tables, mid.tables, ConstraintStep(ids, mid, row).tables);
    }
  }

  /** Some column of a table in the model is of this native enum. */
  ghost predicate AskedFor(enums: seq<EnumRow>, tables: map<int, Table>, rows: seq<ColumnRow>, id: string) {
    exists i :: 0 <= i < |rows| && rows[i].oid in tables && NativeRef(enums, rows[i]) == Some(id)
  }

  lemma AskedMore(enums: seq<EnumRow>, tables: map<int, Table>, rows: seq<ColumnRow>, id: string)
    requires rows != []
    ensures AskedFor(enums, tables, rows, id) <==>
            AskedFor(enums, tables, rows[..|rows| - 1], id) || (rows[|rows| - 1].oid in tables && NativeRef(enums, rows[|rows| - 1]) == Some(id))
  {
    hide NativeRef;
    var init := rows[..|rows| - 1];
    assert forall i :: 0 <= i < |init| ==> init[i] == rows[i];
  }

  lemma {:induction false} ColumnsAsk(enums: seq<EnumRow>, s: Assembly, rows: seq<ColumnRow>, id: string)
    requires s.referenced == {}
    ensures var t := Columns(NativeEnums(enums), s, rows);
            t.tables.Keys == s.tables.Keys && t.checkEnums == s.checkEnums && (id in t.referenced <==> AskedFor(enums, s.tables, rows, id))
    decreases |rows|
  {
    hide NativeEnums, Resolved, NativeRef, AskedFor;
    if rows == [] {
      NoneAsked(enums, s.tables, id);
    } else {
      ColumnsAsk(enums, s, rows[..|rows| - 1], id);
      ResolvedIs(enums, rows[|rows| - 1]);
      AskedMore(enums, s.tables, rows, id);
    }
  }

  lemma NoneAsked(enums: seq<EnumRow>, tables: map<int, Table>, id: string)
    ensures !AskedFor(enums, tables, [], id)
  {
  }

  lemma {:induction false} IndexesEnums(s: Assembly, rows: seq<IndexRow>)
    ensures var t := Indexes(s, rows); t.checkEnums == s.checkEnums && t.referenced == s.referenced && Alike(s.tables, t.tables)
    decreases |rows|
  {
    hide Alike, IndexStep;
    AlikeItself(s.tables);
    if rows != [] {
      var mid := Indexes(s, rows[..|rows| - 1]);
      IndexesEnums(s, rows[..|rows| - 1]);
      IndexAlike(mid, rows[|rows| - 1]);
      AlikeTransitive(s.tables, mid.tables, IndexStep(mid, rows[|rows| - 1]).tables);
    }
  }

  lemma IndexAlike(s: Assembly, row: IndexRow)
    ensures var t := IndexStep(s, row); t.checkEnums == s.checkEnums && t.referenced == s.referenced && Alike(s.tables, t.tables)
  {
    hide ColumnIndex;
  }

  lemma {:induction false} SchemaFirst(schema: string, name: string)
    requires '.' !in schema
    ensures FirstPart(schema + "." + name) == schema
  {
    var id := schema + "." + name;
    if schema != "" {
      SchemaFirst(schema[1..], name);
      assert id[1..] == schema[1..] + "." + name && id[0] == schema[0];
    }
  }

  lemma NothingRead(c: Catalog)
    ensures var s := Classes(c.classes); s.referenced == {} && s.checkEnums == map[]
  {
    NothingYet(c.classes);
  }

  lemma {:induction false} NothingYet(rows: seq<ClassRow>)
    ensures Classes(rows).referenced == {} && Classes(rows).checkEnums == map[]
  {
    if rows != [] {
      NothingYet(rows[..|rows| - 1]);
    }
  }

  /**
   * Which enums the model has and with which values: those of the parsed checks of its columns, and else the native ones that a
   * column of it is of or that are of a schema read.
   */
  lemma EnumsAreTheirRows(c: Catalog, id: string)
    ensures var m := ModelOf(c);
            var check, native := CheckLabels(m.tables, c.constraints, id), Labels(c.enums, id);
            && (id in m.enums <==> check.Some? || (native.Some? && (AskedFor(c.enums, m.tables, c.columns, id) || FirstPart(id) in c.schemas)))
            && (id in m.enums ==> m.enums[id] == if check.Some? then check.value else native.value)
  {
    hide Classes, Columns, Constraints, Indexes, NativeEnums, RefinedAll, TableIds, CheckLabels, Labels, AskedFor, FirstPart, Alike;
    NothingRead(c);
    NativeIsLabels(c.enums, id);
    var tables := Classes(c.classes);
    ColumnsAsk(c.enums, tables, c.columns, id);
    var columns := Columns(NativeEnums(c.enums), tables, c.columns);
    ConstraintsEnums(TableIds(tables), columns, c.constraints, id);
    var constraints := Constraints(TableIds(tables), columns, c.constraints);
    IndexesEnums(constraints, c.indexes);
    var s := Indexes(constraints, c.indexes);
    AlikeTransitive(columns.tables, constraints.tables, s.tables);
    AlikeLabels(columns.tables, s.tables, c.constraints, id);
    AskedAlike(c.enums, tables.tables, columns.tables, s.tables, c.columns, id);
  }

  lemma AskedAlike(enums: seq<EnumRow>, a: map<int, Table>, b: map<int, Table>, d: map<int, Table>, rows: seq<ColumnRow>, id: string)
    requires a.Keys == b.Keys && Alike(b, d)
    ensures AskedFor(enums, a, rows, id) == AskedFor(enums, d, rows, id)
  {
    hide NativeRef;
    assert forall oid :: oid in a <==> oid in a.Keys;
    assert forall oid :: oid in d <==> oid in d.Keys;
  }
}
