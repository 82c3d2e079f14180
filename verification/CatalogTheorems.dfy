/** What the assembled Postgres model says of the catalog: its columns, its foreign keys, its primary keys and its one-to-one relations. */
module CatalogTheorems {
  import opened Wrappers
  import opened JoinedKeys
  import opened CatalogAssembly

  // ---- columns ------------------------------------------------------------

  /** The names of the rows of one table, in order. */
  function NamesOf(rows: seq<ColumnRow>, oid: int): seq<string> {
    if rows == [] then []
    else NamesOf(rows[..|rows| - 1], oid) + (if rows[|rows| - 1].oid == oid then [rows[|rows| - 1].name] else [])
  }

  function ColumnNames(columns: seq<Column>): (names: seq<string>)
    ensures |names| == |columns| && forall k :: 0 <= k < |columns| ==> names[k] == columns[k].name
  {
    if columns == [] then [] else ColumnNames(columns[..|columns| - 1]) + [columns[|columns| - 1].name]
  }

  /** The same columns, by name. */
  predicate SameNames(a: seq<Column>, b: seq<Column>) {
    |a| == |b| && forall k :: 0 <= k < |a| ==> a[k].name == b[k].name
  }

  lemma SameColumnNames(a: seq<Column>, b: seq<Column>)
    requires SameNames(a, b)
    ensures ColumnNames(a) == ColumnNames(b)
  {
  }

  lemma ColumnNamesMore(columns: seq<Column>, c: Column)
    ensures ColumnNames(columns + [c]) == ColumnNames(columns) + [c.name]
  {
    assert (columns + [c])[..|columns|] == columns;
  }

  /** What one row does to one table: its own gets a column that is not marked. */
  lemma ColumnOnTable(native: map<string, seq<string>>, s: Assembly, row: ColumnRow, oid: int)
    requires oid in s.tables
    ensures var t := ColumnStep(native, s, row);
            && oid in t.tables && t.tables[oid].primaryKey == s.tables[oid].primaryKey && t.relations == s.relations
            && t.tables[oid].columns == s.tables[oid].columns
                 + (if row.oid == oid then [Column(row.name, false, false, Resolved(native, row.enumType), None)] else [])
  {
    hide Resolved;
    assert s.tables[oid].columns + [] == s.tables[oid].columns;
  }

  lemma {:induction false} ColumnsNamed(native: map<string, seq<string>>, s: Assembly, rows: seq<ColumnRow>, oid: int)
    requires oid in s.tables && s.tables[oid].columns == []
    ensures var t := Columns(native, s, rows);
            oid in t.tables && ColumnNames(t.tables[oid].columns) == NamesOf(rows, oid)
            && t.tables[oid].primaryKey == s.tables[oid].primaryKey
            && (forall k :: 0 <= k < |t.tables[oid].columns| ==> !t.tables[oid].columns[k].isPrimaryKey)
            && t.relations == s.relations
    decreases |rows|
  {
    if rows == [] {
      assert ColumnNames([]) == [] && NamesOf([], oid) == [];
    } else {
      hide Resolved, ColumnStep, ColumnNames;
      var before, row := Columns(native, s, rows[..|rows| - 1]), rows[|rows| - 1];
      ColumnsNamed(native, s, rows[..|rows| - 1], oid);
      ColumnOnTable(native, before, row, oid);
      ColumnNamesMore(before.tables[oid].columns, Column(row.name, false, false, Resolved(native, row.enumType), None));
      assert before.tables[oid].columns + [] == before.tables[oid].columns;
    }
  }

  // ---- constraints --------------------------------------------------------

  /** What one constraint does to one table. */
  lemma ConstraintOnTable(ids: set<string>, s: Assembly, row: ConstraintRow, oid: int)
    requires oid in s.tables
    ensures var t, own := ConstraintStep(ids, s, row), row.oid == oid && row.what.Primary?;
            && oid in t.tables && t.tables[oid].id == s.tables[oid].id
            && SameNames(t.tables[oid].columns, s.tables[oid].columns)
            && t.tables[oid].primaryKey == (if own then row.columns else s.tables[oid].primaryKey)
            && forall k :: 0 <= k < |s.tables[oid].columns| ==>
                 t.tables[oid].columns[k].isPrimaryKey
                 == (s.tables[oid].columns[k].isPrimaryKey || (own && s.tables[oid].columns[k].name in row.columns))
  {
    hide ColumnIndex, Mirrored, MarkPrimary;
  }

  lemma IndexOnTable(s: Assembly, row: IndexRow, oid: int)
    requires oid in s.tables
    ensures var t := IndexStep(s, row);
            && oid in t.tables && t.tables[oid].id == s.tables[oid].id
            && SameNames(t.tables[oid].columns, s.tables[oid].columns)
            && t.tables[oid].primaryKey == s.tables[oid].primaryKey
            && forall k :: 0 <= k < |s.tables[oid].columns| ==> t.tables[oid].columns[k].isPrimaryKey == s.tables[oid].columns[k].isPrimaryKey
  {
    hide ColumnIndex;
  }

  /** Some primary key constraint of the table names the column. */
  predicate InPrimary(rows: seq<ConstraintRow>, oid: int, name: string) {
    exists j :: 0 <= j < |rows| && rows[j].oid == oid && rows[j].what.Primary? && name in rows[j].columns
  }

  /** The columns of the last primary key constraint of the table. */
  function LastPrimary(rows: seq<ConstraintRow>, oid: int): seq<string> {
    if rows == [] then []
    else if rows[|rows| - 1].oid == oid && rows[|rows| - 1].what.Primary? then rows[|rows| - 1].columns
    else LastPrimary(rows[..|rows| - 1], oid)
  }

  lemma InPrimaryMore(rows: seq<ConstraintRow>, oid: int, name: string)
    requires rows != []
    ensures var last := rows[|rows| - 1];
            InPrimary(rows, oid, name) <==>
              InPrimary(rows[..|rows| - 1], oid, name) || (last.oid == oid && last.what.Primary? && name in last.columns)
  {
  }

  ghost predicate PrimaryOk(t: Table, rows: seq<ConstraintRow>, oid: int) {
    && t.primaryKey == LastPrimary(rows, oid)
    && forall k :: 0 <= k < |t.columns| ==> (t.columns[k].isPrimaryKey <==> InPrimary(rows, oid, t.columns[k].name))
  }

  lemma {:induction false} ConstraintsOnTable(ids: set<string>, s: Assembly, rows: seq<ConstraintRow>, oid: int)
    requires oid in s.tables && s.tables[oid].primaryKey == []
    requires forall k :: 0 <= k < |s.tables[oid].columns| ==> !s.tables[oid].columns[k].isPrimaryKey
    ensures var t := Constraints(ids, s, rows);
            oid in t.tables && PrimaryOk(t.tables[oid], rows, oid) && SameNames(t.tables[oid].columns, s.tables[oid].columns)
    decreases |rows|
  {
    hide ConstraintStep, InPrimary;
    if rows == [] {
      NonePrimary(oid);
    } else {
      var init := rows[..|rows| - 1];
      ConstraintsOnTable(ids, s, init, oid);
      var before := Constraints(ids, s, init);
      ConstraintOnTable(ids, before, rows[|rows| - 1], oid);
      forall k | 0 <= k < |s.tables[oid].columns|
        ensures InPrimary(rows, oid, before.tables[oid].columns[k].name) <==>
                  InPrimary(init, oid, before.tables[oid].columns[k].name)
                  || (rows[|rows| - 1].oid == oid && rows[|rows| - 1].what.Primary? && before.tables[oid].columns[k].name in rows[|rows| - 1].columns)
      {
        InPrimaryMore(rows, oid, before.tables[oid].columns[k].name);
      }
    }
  }

  lemma NonePrimary(oid: int)
    ensures forall name :: !InPrimary([], oid, name)
  {
  }

  lemma {:induction false} IndexesOnTable(s: Assembly, rows: seq<IndexRow>, oid: int)
    requires oid in s.tables
    ensures var t := Indexes(s, rows);
            && oid in t.tables && SameNames(t.tables[oid].columns, s.tables[oid].columns)
            && t.tables[oid].primaryKey == s.tables[oid].primaryKey
            && forall k :: 0 <= k < |s.tables[oid].columns| ==> t.tables[oid].columns[k].isPrimaryKey == s.tables[oid].columns[k].isPrimaryKey
    decreases |rows|
  {
    hide IndexStep;
    if rows != [] {
      IndexesOnTable(s, rows[..|rows| - 1], oid);
      IndexOnTable(Indexes(s, rows[..|rows| - 1]), rows[|rows| - 1], oid);
    }
  }

  /** A table's columns are its rows', in their order; its primary key is the last one given and a column is marked when any one names it. */
  lemma TableIsItsRows(c: Catalog, oid: int)
    requires oid in Classes(c.classes).tables
    ensures var m := ModelOf(c);
            && oid in m.tables
            && ColumnNames(m.tables[oid].columns) == NamesOf(c.columns, oid)
            && PrimaryOk(m.tables[oid], c.constraints, oid)
  {
    hide Classes, Columns, Constraints, Indexes, NativeEnums, KeptEnums, RefinedAll, InPrimary, LastPrimary, NamesOf;
    var native, tables := NativeEnums(c.enums), Classes(c.classes);
    ClassTables(c.classes, oid);
    ColumnsNamed(native, tables, c.columns, oid);
    var columns := Columns(native, tables, c.columns);
    ConstraintsOnTable(TableIds(tables), columns, c.constraints, oid);
    var constraints := Constraints(TableIds(tables), columns, c.constraints);
    IndexesOnTable(constraints, c.indexes, oid);
    var s := Indexes(constraints, c.indexes);
    SameColumnNames(constraints.tables[oid].columns, columns.tables[oid].columns);
    SameColumnNames(s.tables[oid].columns, constraints.tables[oid].columns);
  }

  lemma {:induction false} ClassTables(rows: seq<ClassRow>, oid: int)
    requires oid in Classes(rows).tables
    ensures Classes(rows).tables[oid].columns == [] && Classes(rows).tables[oid].primaryKey == [] && Classes(rows).relations == []
    decreases |rows|
  {
    ClassesRelations(rows);
    var last := rows[|rows| - 1];
    if !(last.wanted && last.oid == oid) {
      ClassTables(rows[..|rows| - 1], oid);
    }
  }

  lemma {:induction false} ClassesRelations(rows: seq<ClassRow>)
    ensures Classes(rows).relations == []
    decreases |rows|
  {
    if rows != [] {
      ClassesRelations(rows[..|rows| - 1]);
    }
  }

  /** With one primary key constraint a table, the columns marked are exactly the primary key's. */
  lemma PrimaryKeyExactly(c: Catalog, oid: int, k: nat)
    requires oid in Classes(c.classes).tables
    requires forall i, j :: 0 <= i < j < |c.constraints| && c.constraints[i].oid == oid && c.constraints[j].oid == oid ==>
      !(c.constraints[i].what.Primary? && c.constraints[j].what.Primary?)
    requires oid in ModelOf(c).tables && k < |ModelOf(c).tables[oid].columns|
    ensures var t := ModelOf(c).tables[oid]; t.columns[k].isPrimaryKey <==> t.columns[k].name in t.primaryKey
  {
    hide ModelOf, Classes;
    TableIsItsRows(c, oid);
    OnePrimary(c.constraints, oid, ModelOf(c).tables[oid].columns[k].name);
  }

  lemma {:induction false} OnePrimary(rows: seq<ConstraintRow>, oid: int, name: string)
    requires forall i, j :: 0 <= i < j < |rows| && rows[i].oid == oid && rows[j].oid == oid ==> !(rows[i].what.Primary? && rows[j].what.Primary?)
    ensures InPrimary(rows, oid, name) <==> name in LastPrimary(rows, oid)
    decreases |rows|
  {
    if rows != [] {
      var last := rows[|rows| - 1];
      if !(last.oid == oid && last.what.Primary?) {
        OnePrimary(rows[..|rows| - 1], oid, name);
        InPrimaryMore(rows, oid, name);
      }
    }
  }

  // ---- foreign keys -------------------------------------------------------

  /** The foreign keys whose two tables are both in the model, in order. */
  function KeysOf(tables: map<int, Table>, ids: set<string>, rows: seq<ConstraintRow>): seq<Relation> {
    if rows == [] then []
    else
      var last := rows[|rows| - 1];
      KeysOf(tables, ids, rows[..|rows| - 1])
      + if last.oid in tables && last.what.Foreign? && Qualified(last.what.refSchema, last.what.refTable) in ids
        then [Relation(tables[last.oid].id, last.columns, Qualified(last.what.refSchema, last.what.refTable), last.what.refColumns, false)] else []
  }

  lemma {:induction false} ConstraintsRelations(ids: set<string>, s: Assembly, rows: seq<ConstraintRow>)
    requires s.relations == []
    ensures var t := Constraints(ids, s, rows); t.relations == KeysOf(s.tables, ids, rows) && SameTables(s, t)
    decreases |rows|
  {
    hide ConstraintStep;
    if rows != [] {
      ConstraintsRelations(ids, s, rows[..|rows| - 1]);
      ConstraintRelation(ids, Constraints(ids, s, rows[..|rows| - 1]), rows[|rows| - 1]);
    }
  }

  lemma ConstraintRelation(ids: set<string>, s: Assembly, row: ConstraintRow)
    ensures var t := ConstraintStep(ids, s, row);
            && SameTables(s, t)
            && t.relations == s.relations
                 + if row.oid in s.tables && row.what.Foreign? && Qualified(row.what.refSchema, row.what.refTable) in ids
                   then [Relation(s.tables[row.oid].id, row.columns, Qualified(row.what.refSchema, row.what.refTable), row.what.refColumns, false)] else []
  {
    hide ColumnIndex, Mirrored, MarkPrimary, Qualified;
  }

  lemma {:induction false} KeysOfSame(a: map<int, Table>, b: map<int, Table>, ids: set<string>, rows: seq<ConstraintRow>)
    requires a.Keys == b.Keys && forall oid :: oid in a ==> a[oid].id == b[oid].id
    ensures KeysOf(a, ids, rows) == KeysOf(b, ids, rows)
    decreases |rows|
  {
    if rows != [] {
      KeysOfSame(a, b, ids, rows[..|rows| - 1]);
    }
  }

  lemma {:induction false} IndexesRelations(s: Assembly, rows: seq<IndexRow>)
    ensures Indexes(s, rows).relations == s.relations
    decreases |rows|
  {
    if rows != [] {
      IndexesRelations(s, rows[..|rows| - 1]);
    }
  }

  lemma {:induction false} ColumnsRelations(native: map<string, seq<string>>, s: Assembly, rows: seq<ColumnRow>)
    ensures var t := Columns(native, s, rows); t.relations == s.relations && SameTables(s, t)
    decreases |rows|
  {
    if rows != [] {
      ColumnsRelations(native, s, rows[..|rows| - 1]);
    }
  }

  /** No foreign key inside the set is lost, and none is made up. */
  lemma RelationsAreTheKeys(c: Catalog)
    ensures var tables := Classes(c.classes); Assembled(c).relations == KeysOf(tables.tables, TableIds(tables), c.constraints)
  {
    hide Classes, Columns, Constraints, Indexes, NativeEnums, TableIds, KeysOf;
    var native, tables := NativeEnums(c.enums), Classes(c.classes);
    ClassesRelations(c.classes);
    ColumnsRelations(native, tables, c.columns);
    var columns := Columns(native, tables, c.columns);
    ConstraintsRelations(TableIds(tables), columns, c.constraints);
    KeysOfSame(columns.tables, tables.tables, TableIds(tables), c.constraints);
    IndexesRelations(Constraints(TableIds(tables), columns, c.constraints), c.indexes);
  }

  lemma {:induction false} KeysStartMany(tables: map<int, Table>, ids: set<string>, rows: seq<ConstraintRow>)
    ensures forall k :: 0 <= k < |KeysOf(tables, ids, rows)| ==> !KeysOf(tables, ids, rows)[k].oneToOne
    decreases |rows|
  {
    if rows != [] {
      KeysStartMany(tables, ids, rows[..|rows| - 1]);
    }
  }

  // ---- one-to-one ---------------------------------------------------------

  /** The same columns, in any order, as the primary key, a unique constraint, or a whole and plain unique index of the table. */
  ghost predicate OnUniqueSet(t: Table, names: seq<string>) {
    || multiset(t.primaryKey) == multiset(names)
    || (exists k :: 0 <= k < |t.uniques| && multiset(t.uniques[k]) == multiset(names))
    || (exists k :: 0 <= k < |t.indexes| && t.indexes[k].unique && !t.indexes[k].partial && !t.indexes[k].hasExpression
                    && multiset(t.indexes[k].columns) == multiset(names))
  }

  lemma {:induction false} IndexSetsAre(indexes: seq<IndexRow>, names: seq<string>)
    ensures (exists k :: 0 <= k < |IndexSets(indexes)| && multiset(IndexSets(indexes)[k]) == multiset(names)) <==>
            (exists k :: 0 <= k < |indexes| && indexes[k].unique && !indexes[k].partial && !indexes[k].hasExpression
                         && multiset(indexes[k].columns) == multiset(names))
  {
    if indexes != [] {
      var init, last := indexes[..|indexes| - 1], indexes[|indexes| - 1];
      IndexSetsAre(init, names);
      var sets := IndexSets(init);
      assert forall k :: 0 <= k < |init| ==> init[k] == indexes[k];
      if last.unique && !last.partial && !last.hasExpression {
        assert IndexSets(indexes) == sets + [last.columns] && (sets + [last.columns])[|sets|] == last.columns;
        assert forall k :: 0 <= k < |sets| ==> IndexSets(indexes)[k] == sets[k];
      } else {
        assert IndexSets(indexes) == sets;
      }
    }
  }

  lemma UniqueSetsAre(t: Table, names: seq<string>)
    requires names != []
    ensures OnOneOf(UniqueSets(t), names) <==> OnUniqueSet(t, names)
  {
    hide IndexSets;
    IndexSetsAre(t.indexes, names);
    var sets, n := UniqueSets(t), |t.uniques|;
    assert sets[0] == t.primaryKey;
    assert forall k :: 0 <= k < n ==> sets[1 + k] == t.uniques[k];
    assert forall k :: 0 <= k < |IndexSets(t.indexes)| ==> sets[1 + n + k] == IndexSets(t.indexes)[k];
    forall k | 0 <= k < |sets|
      ensures multiset(sets[k]) == multiset(names) ==> sets[k] != []
      ensures sets[k] == if k == 0 then t.primaryKey else if k <= n then t.uniques[k - 1] else IndexSets(t.indexes)[k - 1 - n]
    {
      assert |multiset(names)| == |names|;
      assert |multiset(sets[k])| == |sets[k]|;
    }
  }

  predicate NulFree(t: Table) {
    AllFree(UniqueSets(t), NUL)
  }

  lemma CoveredExactly(t: Table, names: seq<string>)
    requires NulFree(t) && Free(names, NUL) && names != []
    ensures Covered(t, names) <==> OnUniqueSet(t, names)
  {
    hide UniqueSets, KeyOf, Free;
    RightExactlyWhenColumnsFree(UniqueSets(t), names, NUL);
    UniqueSetsAre(t, names);
  }

  /**
   * A relation is one-to-one exactly when its columns are those of a unique set of the table it is from: the primary key, a
   * unique constraint, or a whole and plain unique index. No name may hold the NUL the reader joins with, as none does.
   */
  lemma OneToOneExactly(c: Catalog, k: nat)
    requires k < |ModelOf(c).relations| && k < |Assembled(c).relations|
    requires var names := Assembled(c).relations[k].fromColumns; Free(names, NUL) && names != []
    requires forall oid :: oid in Assembled(c).tables ==> NulFree(Assembled(c).tables[oid])
    ensures var s, r := Assembled(c), ModelOf(c).relations[k];
            var t := TableOf(s, s.order, r.fromId);
            r.oneToOne <==> t.Some? && OnUniqueSet(t.value, r.fromColumns)
  {
    hide Assembled, Covered, OnUniqueSet, NulFree, TableOf, KeptEnums, NativeEnums, KeysOf, Classes, TableIds;
    RelationsAreTheKeys(c);
    KeysStartMany(Classes(c.classes).tables, TableIds(Classes(c.classes)), c.constraints);
    var s := Assembled(c);
    var r := s.relations[k];
    assert !r.oneToOne && ModelOf(c).relations[k] == Refined(s, r);
    var t := TableOf(s, s.order, r.fromId);
    if t.Some? {
      var oid := TableOfIsThere(s, s.order, r.fromId);
      CoveredExactly(t.value, r.fromColumns);
    }
  }

  lemma {:induction false} TableOfIsThere(s: Assembly, order: seq<int>, id: string) returns (oid: int)
    requires TableOf(s, order, id).Some?
    ensures oid in s.tables && s.tables[oid] == TableOf(s, order, id).value && s.tables[oid].id == id
    decreases |order|
  {
    if order[0] in s.tables && s.tables[order[0]].id == id {
      oid := order[0];
    } else {
      oid := TableOfIsThere(s, order[1..], id);
    }
  }
}
