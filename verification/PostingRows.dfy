/** posting-rows.ts: the rows of an answer that lie outside what a ledger declares it writes. */
module PostingRows {
  import opened Wrappers
  import opened JoinedKeys

  /** Object keys: the columns an insert gives, those an update is named by and those it sets. */
  datatype Row = Insert(table: string, values: seq<string>) | Update(table: string, key: seq<string>, set_: seq<string>)

  datatype UpdateScope = UpdateScope(by_: seq<string>, set_: seq<string>)

  datatype Scope = Scope(insert: Option<seq<string>>, update: Option<UpdateScope>)

  datatype Issue =
    | NotWritten(i: nat)
    | NoInsert(i: nat)
    | NotInserted(i: nat, column: string)
    | NoUpdate(i: nat)
    | NamedBy(i: nat, key: string)
    | NotSet(i: nat, column: string)

  const COMMA := ','

  // ---- what the check finds -----------------------------------------------

  function NotInsertedFrom(i: nat, columns: seq<string>, allowed: seq<string>): seq<Issue> {
    if columns == [] then []
    else (if columns[0] in allowed then [] else [NotInserted(i, columns[0])]) + NotInsertedFrom(i, columns[1..], allowed)
  }

  function NotSetFrom(i: nat, columns: seq<string>, allowed: seq<string>): seq<Issue> {
    if columns == [] then []
    else (if columns[0] in allowed then [] else [NotSet(i, columns[0])]) + NotSetFrom(i, columns[1..], allowed)
  }

  function RowIssues(i: nat, row: Row, writes: map<string, Scope>): seq<Issue> {
    if row.table !in writes then [NotWritten(i)]
    else
      match row
      case Insert(table, values) =>
        (match writes[table].insert
         case None => [NoInsert(i)]
         case Some(allowed) => NotInsertedFrom(i, values, allowed))
      case Update(table, key, columns) =>
        match writes[table].update
        case None => [NoUpdate(i)]
        case Some(scope) =>
          (if KeyOf(key, COMMA) != KeyOf(scope.by_, COMMA) then [NamedBy(i, KeyOf(scope.by_, COMMA))] else [])
          + NotSetFrom(i, columns, scope.set_)
  }

  function IssuesFrom(rows: seq<Row>, i: nat, writes: map<string, Scope>): seq<Issue>
    requires i <= |rows|
    decreases |rows| - i
  {
    if i == |rows| then [] else RowIssues(i, rows[i], writes) + IssuesFrom(rows, i + 1, writes)
  }

  // ---- the check as the source runs it ------------------------------------

  lemma NotInsertedFromStep(out: seq<Issue>, i: nat, columns: seq<string>, n: nat, allowed: seq<string>)
    requires n < |columns|
    ensures out + NotInsertedFrom(i, columns[n..], allowed)
         == (if columns[n] in allowed then out else out + [NotInserted(i, columns[n])]) + NotInsertedFrom(i, columns[n + 1..], allowed)
  {
    assert columns[n..][0] == columns[n] && columns[n..][1..] == columns[n + 1..];
  }

  method CheckInsert(i: nat, columns: seq<string>, allowed: seq<string>) returns (out: seq<Issue>)
    ensures out == NotInsertedFrom(i, columns, allowed)
  {
    hide NotInsertedFrom;
    out := [];
    var n := 0;
    assert columns[0..] == columns;
    while n < |columns|
      invariant n <= |columns|
      invariant out + NotInsertedFrom(i, columns[n..], allowed) == NotInsertedFrom(i, columns, allowed)
    {
      NotInsertedFromStep(out, i, columns, n, allowed);
      if columns[n] !in allowed {
        out := out + [NotInserted(i, columns[n])];
      }
      n := n + 1;
    }
    NotInsertedFromEnd(i, allowed);
    assert columns[n..] == [];
  }

  lemma NotInsertedFromEnd(i: nat, allowed: seq<string>)
    ensures NotInsertedFrom(i, [], allowed) == []
  {
  }

  lemma NotSetFromStep(out: seq<Issue>, i: nat, columns: seq<string>, n: nat, allowed: seq<string>)
    requires n < |columns|
    ensures out + NotSetFrom(i, columns[n..], allowed)
         == (if columns[n] in allowed then out else out + [NotSet(i, columns[n])]) + NotSetFrom(i, columns[n + 1..], allowed)
  {
    assert columns[n..][0] == columns[n] && columns[n..][1..] == columns[n + 1..];
  }

  method CheckSet(i: nat, columns: seq<string>, allowed: seq<string>) returns (out: seq<Issue>)
    ensures out == NotSetFrom(i, columns, allowed)
  {
    hide NotSetFrom;
    out := [];
    var n := 0;
    assert columns[0..] == columns;
    while n < |columns|
      invariant n <= |columns|
      invariant out + NotSetFrom(i, columns[n..], allowed) == NotSetFrom(i, columns, allowed)
    {
      NotSetFromStep(out, i, columns, n, allowed);
      if columns[n] !in allowed {
        out := out + [NotSet(i, columns[n])];
      }
      n := n + 1;
    }
    NotSetFromEnd(i, allowed);
    assert columns[n..] == [];
  }

  lemma NotSetFromEnd(i: nat, allowed: seq<string>)
    ensures NotSetFrom(i, [], allowed) == []
  {
  }

  method CheckRow(i: nat, row: Row, writes: map<string, Scope>) returns (out: seq<Issue>)
    ensures out == RowIssues(i, row, writes)
  {
    hide KeyOf;
    if row.table !in writes {
      return [NotWritten(i)];
    }
    var scope := writes[row.table];
    if row.Insert? {
      if scope.insert.None? {
        return [NoInsert(i)];
      }
      out := CheckInsert(i, row.values, scope.insert.value);
      return;
    }
    if scope.update.None? {
      return [NoUpdate(i)];
    }
    out := [];
    var by_ := KeyOf(scope.update.value.by_, COMMA);
    if KeyOf(row.key, COMMA) != by_ {
      out := [NamedBy(i, by_)];
    }
    var more := CheckSet(i, row.set_, scope.update.value.set_);
    out := out + more;
  }

  method RowsOutsideWrites(rows: seq<Row>, writes: map<string, Scope>) returns (out: seq<Issue>)
    ensures out == IssuesFrom(rows, 0, writes)
  {
    hide RowIssues;
    out := [];
    var i := 0;
    while i < |rows|
      invariant i <= |rows|
      invariant out + IssuesFrom(rows, i, writes) == IssuesFrom(rows, 0, writes)
    {
      var found := CheckRow(i, rows[i], writes);
      out := out + found;
      i := i + 1;
    }
  }

  // ---- which issues are found ---------------------------------------------

  /** The row at the issue's place has what the issue says. */
  predicate Deserved(rows: seq<Row>, writes: map<string, Scope>, issue: Issue) {
    && issue.i < |rows|
    && var row := rows[issue.i];
       match issue
       case NotWritten(_) => row.table !in writes
       case NoInsert(_) => row.Insert? && row.table in writes && writes[row.table].insert.None?
       case NotInserted(_, column) =>
         row.Insert? && row.table in writes && writes[row.table].insert.Some? && column in row.values && column !in writes[row.table].insert.value
       case NoUpdate(_) => row.Update? && row.table in writes && writes[row.table].update.None?
       case NamedBy(_, key) =>
         row.Update? && row.table in writes && writes[row.table].update.Some?
         && key == KeyOf(writes[row.table].update.value.by_, COMMA) && KeyOf(row.key, COMMA) != key
       case NotSet(_, column) =>
         row.Update? && row.table in writes && writes[row.table].update.Some? && column in row.set_ && column !in writes[row.table].update.value.set_
  }

  lemma {:induction false} NotInsertedHas(i: nat, columns: seq<string>, allowed: seq<string>, issue: Issue)
    ensures issue in NotInsertedFrom(i, columns, allowed) <==>
            issue.NotInserted? && issue.i == i && issue.column in columns && issue.column !in allowed
    decreases |columns|
  {
    if columns != [] {
      NotInsertedHas(i, columns[1..], allowed, issue);
      assert forall c :: c in columns <==> c == columns[0] || c in columns[1..];
    }
  }

  lemma {:induction false} NotSetHas(i: nat, columns: seq<string>, allowed: seq<string>, issue: Issue)
    ensures issue in NotSetFrom(i, columns, allowed) <==> issue.NotSet? && issue.i == i && issue.column in columns && issue.column !in allowed
    decreases |columns|
  {
    if columns != [] {
      NotSetHas(i, columns[1..], allowed, issue);
      assert forall c :: c in columns <==> c == columns[0] || c in columns[1..];
    }
  }

  lemma RowHas(rows: seq<Row>, i: nat, writes: map<string, Scope>, issue: Issue)
    requires i < |rows|
    ensures issue in RowIssues(i, rows[i], writes) <==> issue.i == i && Deserved(rows, writes, issue)
  {
    hide KeyOf, NotInsertedFrom, NotSetFrom;
    var row := rows[i];
    if row.table in writes {
      match row
      case Insert(table, values) =>
        if writes[table].insert.Some? {
          NotInsertedHas(i, values, writes[table].insert.value, issue);
        }
      case Update(table, key, columns) =>
        if writes[table].update.Some? {
          NotSetHas(i, columns, writes[table].update.value.set_, issue);
        }
    }
  }

  /** An issue is found, from the row `i` on, if and only if the row it is of has it. */
  lemma {:induction false} FoundExactlyWhenDeserved(rows: seq<Row>, i: nat, writes: map<string, Scope>, issue: Issue)
    requires i <= |rows|
    ensures issue in IssuesFrom(rows, i, writes) <==> issue.i >= i && Deserved(rows, writes, issue)
    decreases |rows| - i
  {
    hide RowIssues, Deserved;
    if i == |rows| {
      BeyondRows(rows, writes, issue);
    } else {
      RowHas(rows, i, writes, issue);
      FoundExactlyWhenDeserved(rows, i + 1, writes, issue);
    }
  }

  lemma BeyondRows(rows: seq<Row>, writes: map<string, Scope>, issue: Issue)
    ensures issue.i >= |rows| ==> !Deserved(rows, writes, issue)
  {
  }

  // ---- what an empty answer means -----------------------------------------

  predicate AllIn(columns: seq<string>, allowed: seq<string>) {
    forall n :: 0 <= n < |columns| ==> columns[n] in allowed
  }

  /** The table is one the ledger writes, in that way; every column is one it lists; an update is named by exactly the columns declared. */
  ghost predicate Inside(row: Row, writes: map<string, Scope>) {
    row.table in writes &&
    match row
    case Insert(table, values) => writes[table].insert.Some? && AllIn(values, writes[table].insert.value)
    case Update(table, key, columns) =>
      && writes[table].update.Some?
      && multiset(key) == multiset(writes[table].update.value.by_)
      && AllIn(columns, writes[table].update.value.set_)
  }

  /** What a manifest can be checked for: no declared key holds a comma, or is the one empty name. */
  ghost predicate CommaFree(writes: map<string, Scope>) {
    forall table :: table in writes && writes[table].update.Some? ==> DeclaredPlainly(writes[table].update.value)
  }

  predicate DeclaredPlainly(scope: UpdateScope) {
    Free(scope.by_, COMMA) && scope.by_ != [""]
  }

  /** The same of the key a row names itself by. */
  predicate NamedPlainly(row: Row) {
    row.Update? ==> Free(row.key, COMMA) && row.key != [""]
  }

  lemma {:induction false} InsertedEmpty(i: nat, columns: seq<string>, allowed: seq<string>)
    ensures NotInsertedFrom(i, columns, allowed) == [] <==> AllIn(columns, allowed)
    decreases |columns|
  {
    if columns != [] {
      InsertedEmpty(i, columns[1..], allowed);
      assert AllIn(columns, allowed) <==> columns[0] in allowed && AllIn(columns[1..], allowed);
    }
  }

  lemma {:induction false} SetEmpty(i: nat, columns: seq<string>, allowed: seq<string>)
    ensures NotSetFrom(i, columns, allowed) == [] <==> AllIn(columns, allowed)
    decreases |columns|
  {
    if columns != [] {
      SetEmpty(i, columns[1..], allowed);
      assert AllIn(columns, allowed) <==> columns[0] in allowed && AllIn(columns[1..], allowed);
    }
  }

  lemma SameKey(key: seq<string>, by_: seq<string>)
    requires Free(by_, COMMA) && by_ != [""]
    ensures multiset(key) == multiset(by_) <==> KeyOf(key, COMMA) == KeyOf(by_, COMMA) && Free(key, COMMA) && key != [""]
  {
    hide KeyOf, Free;
    if Free(key, COMMA) {
      KeyCanonical(key, by_, COMMA);
    }
    if multiset(key) == multiset(by_) {
      SameNamesFree(key, by_, COMMA);
    }
  }

  lemma RowInside(i: nat, row: Row, writes: map<string, Scope>)
    requires CommaFree(writes)
    ensures Inside(row, writes) <==> RowIssues(i, row, writes) == [] && NamedPlainly(row)
  {
    hide KeyOf, NotInsertedFrom, NotSetFrom, AllIn, Free;
    if row.table in writes {
      match row
      case Insert(table, values) =>
        if writes[table].insert.Some? {
          InsertedEmpty(i, values, writes[table].insert.value);
        }
      case Update(table, key, columns) =>
        if writes[table].update.Some? {
          var scope := writes[table].update.value;
          assert DeclaredPlainly(scope);
          SameKey(key, scope.by_);
          SetEmpty(i, columns, scope.set_);
        }
    }
  }

  /**
   * Under declared keys free of commas, whatever the rows: all of them stay inside what is declared if and only if nothing is
   * found and no update names itself by a column with a comma, or by the one empty name.
   */
  lemma {:induction false} NothingFoundExactlyWhenInside(rows: seq<Row>, i: nat, writes: map<string, Scope>)
    requires i <= |rows| && CommaFree(writes)
    ensures (forall n :: i <= n < |rows| ==> Inside(rows[n], writes)) <==>
            IssuesFrom(rows, i, writes) == [] && forall n :: i <= n < |rows| ==> NamedPlainly(rows[n])
    decreases |rows| - i
  {
    hide RowIssues, Inside, CommaFree, NamedPlainly;
    if i < |rows| {
      RowInside(i, rows[i], writes);
      NothingFoundExactlyWhenInside(rows, i + 1, writes);
    }
  }

  /**
   * Every declared key of two columns or more lets an update through that is keyed by one other column, whose name joins them,
   * and sets any columns it may set.
   */
  lemma CommaLetsAnotherKeyThrough(writes: map<string, Scope>, table: string, i: nat, columns: seq<string>)
    requires table in writes && writes[table].update.Some? && |writes[table].update.value.by_| >= 2
    requires AllIn(columns, writes[table].update.value.set_)
    ensures var row := Update(table, [KeyOf(writes[table].update.value.by_, COMMA)], columns);
            RowIssues(i, row, writes) == [] && !Inside(row, writes)
  {
    hide KeyOf, AllIn, NotSetFrom;
    SharedKey(writes[table].update.value.by_, COMMA);
    SetEmpty(i, columns, writes[table].update.value.set_);
  }
}
