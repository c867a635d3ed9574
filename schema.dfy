/**
 * Schema assembly of `fetch_schema` (db/query.py): the three catalog result
 * sets (table rows, column rows, foreign-key rows) and an optional table-name
 * allow-list become a map from "schema.table" to TableInfo and a list of
 * ForeignKeyInfo, one per constraint.
 *
 * The catalog queries themselves run on the database server; their rows are
 * inputs here, in the order the queries request.
 */
module Schema {
  import opened Wrappers
  import opened Text

  // ---------------------------------------------------------------------------
  // Data structures
  // ---------------------------------------------------------------------------

  datatype ColumnInfo = ColumnInfo(
    name: string,
    dataType: string,
    isNullable: bool,
    isPrimaryKey: bool,
    isForeignKey: bool)

  datatype ForeignKeyInfo = ForeignKeyInfo(
    constraintName: string,
    fromTable: string,
    fromSchema: string,
    fromColumns: seq<string>,
    toTable: string,
    toSchema: string,
    toColumns: seq<string>,
    isUnique: bool)

  datatype TableInfo = TableInfo(name: string, schema: string, columns: seq<ColumnInfo>)

  /** A row of the table query. */
  datatype TableRow = TableRow(schemaName: string, tableName: string)

  /** A row of the column query. */
  datatype ColumnRow = ColumnRow(
    schemaName: string,
    tableName: string,
    columnName: string,
    typeName: string,
    isNullable: bool,
    isPrimaryKey: bool)

  /** A row of the foreign-key query: one per (constraint, column pair). */
  datatype ForeignKeyRow = ForeignKeyRow(
    constraintName: string,
    fromSchema: string,
    fromTable: string,
    keyOrdinal: int,
    fromColumn: string,
    toSchema: string,
    toTable: string,
    toColumn: string,
    isUnique: bool)

  /** The "schema.table" key under which a table is stored. */
  function QualifiedKey(schema: string, table: string): string
  {
    schema + "." + table
  }

  function TableKey(r: TableRow): string { QualifiedKey(r.schemaName, r.tableName) }

  function ColumnKey(r: ColumnRow): string { QualifiedKey(r.schemaName, r.tableName) }

  function FromKey(r: ForeignKeyRow): string { QualifiedKey(r.fromSchema, r.fromTable) }

  function ToKey(r: ForeignKeyRow): string { QualifiedKey(r.toSchema, r.toTable) }

  // ---------------------------------------------------------------------------
  // Step 1: the admitted tables
  // ---------------------------------------------------------------------------

  /** Python's truth value of `table_filter`: `None` and the empty list mean "no filter". */
  predicate FilterActive(tableFilter: Option<seq<string>>)
  {
    tableFilter.Some? && |tableFilter.value| > 0
  }

  /** A table row passes the filter: no filter, or its name equals some entry ignoring case. */
  predicate Admits(tableFilter: Option<seq<string>>, r: TableRow)
  {
    !FilterActive(tableFilter) || exists n :: n in tableFilter.value && Lower(n) == Lower(r.tableName)
  }

  /** The rows, in order, whose lower-cased table name is in `names`. */
  function SelectByName(rows: seq<TableRow>, names: set<string>): (selected: seq<TableRow>)
    ensures forall r :: r in selected <==> r in rows && Lower(r.tableName) in names
    decreases |rows|
  {
    if rows == [] then []
    else (if Lower(rows[0].tableName) in names then [rows[0]] else []) + SelectByName(rows[1..], names)
  }

  /** The table rows that the allow-list admits, in row order. */
  function AdmitTables(rows: seq<TableRow>, tableFilter: Option<seq<string>>): (admitted: seq<TableRow>)
    ensures forall r :: r in admitted <==> r in rows && Admits(tableFilter, r)
    ensures !FilterActive(tableFilter) ==> admitted == rows
  {
    if FilterActive(tableFilter) then
      SelectByName(rows, set n | n in tableFilter.value :: Lower(n))
    else
      rows
  }

  /** Position `i` holds the last admitted row whose key is `k`. */
  predicate LastWithKey(admitted: seq<TableRow>, i: int, k: string)
  {
    0 <= i < |admitted| && TableKey(admitted[i]) == k &&
    forall j :: i < j < |admitted| ==> TableKey(admitted[j]) != k
  }

  /** The dict comprehension over the admitted rows: a later row with the same key replaces an earlier one. */
  function BuildTables(admitted: seq<TableRow>): (tables: map<string, TableInfo>)
    ensures forall k :: k in tables ==> tables[k].columns == []
    decreases |admitted|
  {
    if admitted == [] then map[]
    else
      var r := admitted[|admitted| - 1];
      BuildTables(admitted[..|admitted| - 1])[TableKey(r) := TableInfo(r.tableName, r.schemaName, [])]
  }

  /**
   * One empty table per distinct key of the admitted rows, named after the last row
   * with that key.
   */
  lemma {:induction false} BuildTablesSpec(admitted: seq<TableRow>)
    ensures forall k :: k in BuildTables(admitted) <==> exists r :: r in admitted && TableKey(r) == k
    ensures forall k :: k in BuildTables(admitted) ==>
      exists i :: (LastWithKey(admitted, i, k) &&
        BuildTables(admitted)[k] == TableInfo(admitted[i].tableName, admitted[i].schemaName, []))
    decreases |admitted|
  {
    if admitted != [] {
      var n := |admitted| - 1;
      var init := admitted[..n];
      var r := admitted[n];
      BuildTablesSpec(init);
      var rest := BuildTables(init);
      assert admitted == init + [r];
      forall k | k in BuildTables(admitted)
        ensures exists i :: (LastWithKey(admitted, i, k) &&
          BuildTables(admitted)[k] == TableInfo(admitted[i].tableName, admitted[i].schemaName, []))
      {
        if k == TableKey(r) {
          assert LastWithKey(admitted, n, k);
        } else {
          var i :| LastWithKey(init, i, k) && rest[k] == TableInfo(init[i].tableName, init[i].schemaName, []);
          assert LastWithKey(admitted, i, k);
        }
      }
    }
  }

  // ---------------------------------------------------------------------------
  // Step 2: the columns of each table
  // ---------------------------------------------------------------------------

  /** The ColumnInfo a column row creates; its foreign-key flag starts false. */
  function NewColumn(r: ColumnRow): ColumnInfo
  {
    ColumnInfo(r.columnName, r.typeName, r.isNullable, r.isPrimaryKey, false)
  }

  /** The columns that the rows carrying `key` create, in row order. */
  function ColumnsFor(rows: seq<ColumnRow>, key: string): (columns: seq<ColumnInfo>)
    ensures |columns| <= |rows|
    ensures forall c :: c in columns <==> exists r :: r in rows && ColumnKey(r) == key && NewColumn(r) == c
    decreases |rows|
  {
    if rows == [] then []
    else (if ColumnKey(rows[0]) == key then [NewColumn(rows[0])] else []) + ColumnsFor(rows[1..], key)
  }

  /** Columns are collected row by row: the rows of a concatenation give the concatenated columns. */
  lemma {:induction false} ColumnsForAppend(a: seq<ColumnRow>, b: seq<ColumnRow>, key: string)
    ensures ColumnsFor(a + b, key) == ColumnsFor(a, key) + ColumnsFor(b, key)
    decreases |a|
  {
    if a != [] {
      assert (a + b)[1..] == a[1..] + b;
      ColumnsForAppend(a[1..], b, key);
    } else {
      assert a + b == b;
    }
  }

  /** `tables` is `tables0` with the columns of the rows `done` appended. */
  ghost predicate AttachedFrom(tables: map<string, TableInfo>, tables0: map<string, TableInfo>, done: seq<ColumnRow>)
  {
    && tables.Keys == tables0.Keys
    && forall k :: k in tables ==> tables[k] == tables0[k].(columns := tables0[k].columns + ColumnsFor(done, k))
  }

  /** Lines 220-230: a row whose key is in the map appends one column to that table; any other row is ignored. */
  method AttachRow(tables: map<string, TableInfo>, row: ColumnRow,
                   ghost tables0: map<string, TableInfo>, ghost done: seq<ColumnRow>)
    returns (tables': map<string, TableInfo>)
    requires AttachedFrom(tables, tables0, done)
    ensures AttachedFrom(tables', tables0, done + [row])
  {
    var key := ColumnKey(row);
    tables' := tables;
    if key in tables {
      tables' := tables[key := tables[key].(columns := tables[key].columns + [NewColumn(row)])];
    }
    AttachedStep(tables, tables0, done, row);
  }

  /** The state after one more row, either branch, keeps the attachment invariant. */
  lemma AttachedStep(tables: map<string, TableInfo>, tables0: map<string, TableInfo>, done: seq<ColumnRow>, row: ColumnRow)
    requires AttachedFrom(tables, tables0, done)
    ensures var key := ColumnKey(row);
      AttachedFrom(if key in tables then tables[key := tables[key].(columns := tables[key].columns + [NewColumn(row)])] else tables,
                   tables0, done + [row])
  {
    var key := ColumnKey(row);
    if key in tables {
      var tables' := tables[key := tables[key].(columns := tables[key].columns + [NewColumn(row)])];
      forall k | k in tables'
        ensures tables'[k] == tables0[k].(columns := tables0[k].columns + ColumnsFor(done + [row], k))
      {
        ColumnsAfterRow(done, row, k);
      }
      assert AttachedFrom(tables', tables0, done + [row]);
    } else {
      forall k | k in tables
        ensures tables[k] == tables0[k].(columns := tables0[k].columns + ColumnsFor(done + [row], k))
      {
        ColumnsAfterRow(done, row, k);
      }
      assert AttachedFrom(tables, tables0, done + [row]);
    }
  }

  /** One more row contributes its column to its own table and nothing to the others. */
  lemma ColumnsAfterRow(done: seq<ColumnRow>, row: ColumnRow, key: string)
    ensures ColumnsFor(done + [row], key) == ColumnsFor(done, key) + if ColumnKey(row) == key then [NewColumn(row)] else []
  {
    ColumnsForAppend(done, [row], key);
    assert [row][1..] == [];
  }

  /** The loop of lines 219-230: each row carrying a key in the map appends one column to that table. */
  method AttachColumns(tables0: map<string, TableInfo>, rows: seq<ColumnRow>) returns (tables: map<string, TableInfo>)
    ensures tables.Keys == tables0.Keys
    ensures forall k :: k in tables ==>
      tables[k] == tables0[k].(columns := tables0[k].columns + ColumnsFor(rows, k))
  {
    tables := tables0;
    assert AttachedFrom(tables, tables0, rows[..0]) by {
      assert forall k :: k in tables ==> tables0[k].columns + ColumnsFor([], k) == tables0[k].columns;
    }
    var i := 0;
    while i < |rows|
      invariant 0 <= i <= |rows|
      invariant AttachedFrom(tables, tables0, rows[..i])
    {
      tables := AttachRow(tables, rows[i], tables0, rows[..i]);
      assert rows[..i + 1] == rows[..i] + [rows[i]];
      i := i + 1;
    }
    assert rows[..i] == rows;
  }

  // ---------------------------------------------------------------------------
  // Step 3: foreign keys, grouped by constraint, and the back-filled flag
  // ---------------------------------------------------------------------------

  /** A foreign-key row is used unless a filter is active and one of its endpoints was not admitted. */
  predicate Keeps(filterActive: bool, allowed: set<string>, r: ForeignKeyRow)
  {
    !(filterActive && (FromKey(r) !in allowed || ToKey(r) !in allowed))
  }

  /** The foreign-key rows the loop does not skip, in row order. */
  function KeptRows(rows: seq<ForeignKeyRow>, filterActive: bool, allowed: set<string>): (kept: seq<ForeignKeyRow>)
    ensures forall r :: r in kept <==> r in rows && Keeps(filterActive, allowed, r)
    ensures !filterActive ==> kept == rows
    decreases |rows|
  {
    if rows == [] then []
    else
      var rest := KeptRows(rows[1..], filterActive, allowed);
      assert rows == [rows[0]] + rows[1..];
      (if Keeps(filterActive, allowed, rows[0]) then [rows[0]] else []) + rest
  }

  lemma {:induction false} KeptRowsAppend(a: seq<ForeignKeyRow>, b: seq<ForeignKeyRow>, filterActive: bool, allowed: set<string>)
    ensures KeptRows(a + b, filterActive, allowed) == KeptRows(a, filterActive, allowed) + KeptRows(b, filterActive, allowed)
    decreases |a|
  {
    if a != [] {
      assert (a + b)[1..] == a[1..] + b;
      KeptRowsAppend(a[1..], b, filterActive, allowed);
    } else {
      assert a + b == b;
    }
  }

  lemma KeptRowsStep(rows: seq<ForeignKeyRow>, i: int, filterActive: bool, allowed: set<string>)
    requires 0 <= i < |rows|
    ensures Keeps(filterActive, allowed, rows[i]) ==>
      KeptRows(rows[..i + 1], filterActive, allowed) == KeptRows(rows[..i], filterActive, allowed) + [rows[i]]
    ensures !Keeps(filterActive, allowed, rows[i]) ==>
      KeptRows(rows[..i + 1], filterActive, allowed) == KeptRows(rows[..i], filterActive, allowed)
  {
    assert rows[..i + 1] == rows[..i] + [rows[i]];
    KeptRowsAppend(rows[..i], [rows[i]], filterActive, allowed);
  }

  /** The rows of one constraint, in row order. */
  function RowsNamed(rows: seq<ForeignKeyRow>, name: string): (named: seq<ForeignKeyRow>)
    ensures forall r :: r in named <==> r in rows && r.constraintName == name
    decreases |rows|
  {
    if rows == [] then []
    else (if rows[0].constraintName == name then [rows[0]] else []) + RowsNamed(rows[1..], name)
  }

  lemma {:induction false} RowsNamedAppend(a: seq<ForeignKeyRow>, b: seq<ForeignKeyRow>, name: string)
    ensures RowsNamed(a + b, name) == RowsNamed(a, name) + RowsNamed(b, name)
    decreases |a|
  {
    if a != [] {
      assert (a + b)[1..] == a[1..] + b;
      RowsNamedAppend(a[1..], b, name);
    } else {
      assert a + b == b;
    }
  }

  /** The constraint name of every row, in row order. */
  function ConstraintNames(rows: seq<ForeignKeyRow>): (names: seq<string>)
    ensures |names| == |rows|
  {
    seq(|rows|, i requires 0 <= i < |rows| => rows[i].constraintName)
  }

  /** The position of the first occurrence of `x` in `s`. */
  function FirstIndex(s: seq<string>, x: string): (i: nat)
    requires x in s
    ensures i < |s| && s[i] == x && x !in s[..i]
  {
    if s[0] == x then 0 else 1 + FirstIndex(s[1..], x)
  }

  lemma {:induction false} FirstIndexAppend(s: seq<string>, a: string, x: string)
    requires x in s
    ensures FirstIndex(s + [a], x) == FirstIndex(s, x)
    decreases |s|
  {
    if s[0] != x {
      assert (s + [a])[1..] == s[1..] + [a];
      FirstIndexAppend(s[1..], a, x);
    }
  }

  /** The values of `s` without repetition, each at its first occurrence: Python dict insertion order. */
  function Distinct(s: seq<string>): (d: seq<string>)
    ensures forall x :: x in d <==> x in s
    decreases |s|
  {
    if s == [] then []
    else
      var d := Distinct(s[..|s| - 1]);
      if s[|s| - 1] in d then d else d + [s[|s| - 1]]
  }

  /** Each value occurs once, and the values are ordered by their first occurrence in `s`. */
  lemma {:induction false} DistinctSpec(s: seq<string>)
    ensures forall i, j :: 0 <= i < j < |Distinct(s)| ==> Distinct(s)[i] != Distinct(s)[j]
    ensures forall i, j :: 0 <= i < j < |Distinct(s)| ==> FirstIndex(s, Distinct(s)[i]) < FirstIndex(s, Distinct(s)[j])
  {
    DistinctOrder(s);
  }

  /** The values of `Distinct(s)` come in the order of their first occurrence in `s`. */
  lemma {:induction false} DistinctOrder(s: seq<string>)
    ensures forall i, j :: 0 <= i < j < |Distinct(s)| ==> FirstIndex(s, Distinct(s)[i]) < FirstIndex(s, Distinct(s)[j])
    decreases |s|
  {
    if s != [] {
      var init := s[..|s| - 1];
      var x := s[|s| - 1];
      DistinctOrder(init);
      assert s == init + [x];
      forall y | y in init ensures FirstIndex(s, y) == FirstIndex(init, y) {
        FirstIndexAppend(init, x, y);
      }
      if x !in Distinct(init) {
        assert FirstIndex(s, x) == |init| by {
          assert x !in init;
          assert x !in s[..FirstIndex(s, x)];
        }
      }
    }
  }

  /** Every constraint name of the rows has at least one row in its group. */
  lemma {:induction false} RowsNamedPresent(rows: seq<ForeignKeyRow>, name: string)
    requires name in ConstraintNames(rows)
    ensures |RowsNamed(rows, name)| > 0
  {
    var k :| 0 <= k < |rows| && ConstraintNames(rows)[k] == name;
    assert rows[k] in RowsNamed(rows, name);
  }

  /** The from- and to-columns of a group's rows, index by index. */
  function FromColumnsOf(rs: seq<ForeignKeyRow>): (cols: seq<string>)
    ensures |cols| == |rs|
  {
    seq(|rs|, j requires 0 <= j < |rs| => rs[j].fromColumn)
  }

  function ToColumnsOf(rs: seq<ForeignKeyRow>): (cols: seq<string>)
    ensures |cols| == |rs|
  {
    seq(|rs|, j requires 0 <= j < |rs| => rs[j].toColumn)
  }

  lemma ColumnsOfAppend(rs: seq<ForeignKeyRow>, row: ForeignKeyRow)
    ensures FromColumnsOf(rs + [row]) == FromColumnsOf(rs) + [row.fromColumn]
    ensures ToColumnsOf(rs + [row]) == ToColumnsOf(rs) + [row.toColumn]
  {
  }

  /** The ForeignKeyInfo of a non-empty group: the first row fixes the endpoints and the uniqueness bit. */
  function Group(name: string, rs: seq<ForeignKeyRow>): ForeignKeyInfo
    requires |rs| > 0
  {
    ForeignKeyInfo(name, rs[0].fromTable, rs[0].fromSchema, FromColumnsOf(rs),
                   rs[0].toTable, rs[0].toSchema, ToColumnsOf(rs), rs[0].isUnique)
  }

  /** The relationship of constraint `name` among the used rows. */
  function Relationship(kept: seq<ForeignKeyRow>, name: string): ForeignKeyInfo
    requires name in ConstraintNames(kept)
  {
    RowsNamedPresent(kept, name);
    Group(name, RowsNamed(kept, name))
  }

  /** `list(fk_map.values())`: one relationship per constraint name, in first-encounter order. */
  function ForeignKeysOf(kept: seq<ForeignKeyRow>): (fks: seq<ForeignKeyInfo>)
  {
    var names := Distinct(ConstraintNames(kept));
    seq(|names|, i requires 0 <= i < |names| => Relationship(kept, names[i]))
  }

  /** Some used row has `key` as its from-key and `column` as its from-column. */
  predicate MarkedBy(kept: seq<ForeignKeyRow>, key: string, column: string)
  {
    exists r :: r in kept && FromKey(r) == key && r.fromColumn == column
  }

  /** The columns of table `key` after the back-fill: a column is flagged when some used row names it. */
  function BackFilled(columns: seq<ColumnInfo>, kept: seq<ForeignKeyRow>, key: string): (filled: seq<ColumnInfo>)
  {
    seq(|columns|, j requires 0 <= j < |columns| =>
      columns[j].(isForeignKey := columns[j].isForeignKey || MarkedBy(kept, key, columns[j].name)))
  }

  /** The loop of lines 258-260: every column named `name` gets its foreign-key flag set; nothing else changes. */
  method MarkColumns(columns: seq<ColumnInfo>, name: string) returns (marked: seq<ColumnInfo>)
    ensures |marked| == |columns|
    ensures forall j :: 0 <= j < |columns| ==>
      marked[j] == columns[j].(isForeignKey := columns[j].isForeignKey || columns[j].name == name)
  {
    marked := columns;
    var j := 0;
    while j < |marked|
      invariant 0 <= j <= |marked| == |columns|
      invariant forall m :: 0 <= m < j ==>
        marked[m] == columns[m].(isForeignKey := columns[m].isForeignKey || columns[m].name == name)
      invariant forall m :: j <= m < |marked| ==> marked[m] == columns[m]
    {
      if marked[j].name == name {
        marked := marked[j := marked[j].(isForeignKey := true)];
      }
      j := j + 1;
    }
  }

  /** A constraint without rows has no rows in the group. */
  lemma {:induction false} RowsNamedAbsent(rows: seq<ForeignKeyRow>, name: string)
    requires name !in ConstraintNames(rows)
    ensures RowsNamed(rows, name) == []
    decreases |rows|
  {
    if rows != [] {
      assert ConstraintNames(rows)[0] == rows[0].constraintName;
      assert ConstraintNames(rows[1..]) == ConstraintNames(rows)[1..];
      RowsNamedAbsent(rows[1..], name);
    }
  }

  /** The first row of a new constraint creates its relationship with one column pair. */
  lemma RelationshipNew(kept: seq<ForeignKeyRow>, row: ForeignKeyRow)
    requires row.constraintName !in ConstraintNames(kept)
    ensures row.constraintName in ConstraintNames(kept + [row])
    ensures Relationship(kept + [row], row.constraintName) ==
      ForeignKeyInfo(row.constraintName, row.fromTable, row.fromSchema, [row.fromColumn],
                     row.toTable, row.toSchema, [row.toColumn], row.isUnique)
  {
    ConstraintNamesStep(kept, row);
    RowsNamedAppend(kept, [row], row.constraintName);
    RowsNamedAbsent(kept, row.constraintName);
    assert RowsNamed(kept + [row], row.constraintName) == [row];
  }

  /** A later row of a known constraint only extends its two column lists. */
  lemma RelationshipExtended(kept: seq<ForeignKeyRow>, row: ForeignKeyRow)
    requires row.constraintName in ConstraintNames(kept)
    ensures row.constraintName in ConstraintNames(kept + [row])
    ensures var r := Relationship(kept, row.constraintName);
      Relationship(kept + [row], row.constraintName) ==
        r.(fromColumns := r.fromColumns + [row.fromColumn], toColumns := r.toColumns + [row.toColumn])
  {
    ConstraintNamesStep(kept, row);
    var name := row.constraintName;
    RowsNamedAppend(kept, [row], name);
    RowsNamedPresent(kept, name);
    var rs := RowsNamed(kept, name);
    assert RowsNamed(kept + [row], name) == rs + [row];
    ColumnsOfAppend(rs, row);
  }

  /** A row of another constraint leaves a relationship as it was. */
  lemma RelationshipOther(kept: seq<ForeignKeyRow>, row: ForeignKeyRow, name: string)
    requires name in ConstraintNames(kept) && name != row.constraintName
    ensures name in ConstraintNames(kept + [row])
    ensures Relationship(kept + [row], name) == Relationship(kept, name)
  {
    ConstraintNamesStep(kept, row);
    RowsNamedAppend(kept, [row], name);
    assert RowsNamed(kept + [row], name) == RowsNamed(kept, name);
  }

  /** The names of the used rows grow by one name per used row. */
  lemma ConstraintNamesStep(kept: seq<ForeignKeyRow>, row: ForeignKeyRow)
    ensures ConstraintNames(kept + [row]) == ConstraintNames(kept) + [row.constraintName]
  {
  }

  /** `fkMap` and its insertion `order` hold exactly the relationships of the used rows `kept`. */
  ghost predicate Grouped(fkMap: map<string, ForeignKeyInfo>, order: seq<string>, kept: seq<ForeignKeyRow>)
  {
    && order == Distinct(ConstraintNames(kept))
    && (forall n :: n in fkMap <==> n in order)
    && (forall n :: n in fkMap ==> n in ConstraintNames(kept) && fkMap[n] == Relationship(kept, n))
  }

  /** `tables` is `tables0` with the flags back-filled for the used rows `kept`. */
  ghost predicate FilledFrom(tables: map<string, TableInfo>, tables0: map<string, TableInfo>, kept: seq<ForeignKeyRow>)
  {
    && tables.Keys == tables0.Keys
    && forall k :: k in tables ==> tables[k] == tables0[k].(columns := BackFilled(tables0[k].columns, kept, k))
  }

  /** Distinct grows by a value exactly when that value is new. */
  lemma DistinctStep(s: seq<string>, x: string)
    ensures Distinct(s + [x]) == if x in Distinct(s) then Distinct(s) else Distinct(s) + [x]
  {
    assert (s + [x])[..|s|] == s;
  }

  /** Lines 243-252: the entry a constraint's first row creates, with both column lists empty. */
  function Started(row: ForeignKeyRow): ForeignKeyInfo
  {
    ForeignKeyInfo(row.constraintName, row.fromTable, row.fromSchema, [], row.toTable, row.toSchema, [], row.isUnique)
  }

  /** Lines 253-254: each row appends its from-column and its to-column. */
  function Extended(entry: ForeignKeyInfo, row: ForeignKeyRow): ForeignKeyInfo
  {
    entry.(fromColumns := entry.fromColumns + [row.fromColumn], toColumns := entry.toColumns + [row.toColumn])
  }

  /** Lines 241-254: look up or create the constraint's entry, then extend its two column lists. */
  method GroupRow(fkMap: map<string, ForeignKeyInfo>, order: seq<string>, row: ForeignKeyRow, ghost kept: seq<ForeignKeyRow>)
    returns (fkMap': map<string, ForeignKeyInfo>, order': seq<string>)
    requires Grouped(fkMap, order, kept)
    ensures Grouped(fkMap', order', kept + [row])
  {
    var cname := row.constraintName;
    var entry: ForeignKeyInfo;
    order' := order;
    if cname in fkMap {
      entry := fkMap[cname];
    } else {
      entry := Started(row);
      order' := order + [cname];
    }
    GroupedEntry(fkMap, order, kept, row);
    entry := Extended(entry, row);
    fkMap' := fkMap[cname := entry];
    GroupedStep(fkMap, order, kept, row);
  }

  /** The entry after a row is the relationship of the used rows with that row added. */
  lemma GroupedEntry(fkMap: map<string, ForeignKeyInfo>, order: seq<string>, kept: seq<ForeignKeyRow>, row: ForeignKeyRow)
    requires Grouped(fkMap, order, kept)
    ensures row.constraintName in ConstraintNames(kept + [row])
    ensures var cname := row.constraintName;
      Extended(if cname in fkMap then fkMap[cname] else Started(row), row) == Relationship(kept + [row], cname)
  {
    ConstraintNamesStep(kept, row);
    if row.constraintName in fkMap {
      RelationshipExtended(kept, row);
    } else {
      RelationshipNew(kept, row);
    }
  }

  /** Storing that entry, and appending a new name to the order, keeps the grouping invariant. */
  lemma GroupedStep(fkMap: map<string, ForeignKeyInfo>, order: seq<string>, kept: seq<ForeignKeyRow>, row: ForeignKeyRow)
    requires Grouped(fkMap, order, kept)
    ensures row.constraintName in ConstraintNames(kept + [row])
    ensures var cname := row.constraintName;
      Grouped(fkMap[cname := Relationship(kept + [row], cname)],
              if cname in fkMap then order else order + [cname], kept + [row])
  {
    var cname := row.constraintName;
    ConstraintNamesStep(kept, row);
    var names := ConstraintNames(kept + [row]);
    var fkMap' := fkMap[cname := Relationship(kept + [row], cname)];
    var order' := if cname in fkMap then order else order + [cname];
    assert order' == Distinct(names) by {
      DistinctStep(ConstraintNames(kept), cname);
    }
    assert forall n :: n in fkMap' <==> n in order';
    forall n | n in fkMap'
      ensures n in names && fkMap'[n] == Relationship(kept + [row], n)
    {
      if n != cname {
        RelationshipOther(kept, row, n);
      }
    }
    assert Grouped(fkMap', order', kept + [row]);
  }

  lemma MarkedByStep(kept: seq<ForeignKeyRow>, row: ForeignKeyRow, key: string, column: string)
    ensures MarkedBy(kept + [row], key, column) <==> MarkedBy(kept, key, column) || (FromKey(row) == key && row.fromColumn == column)
  {
    if MarkedBy(kept + [row], key, column) && !(FromKey(row) == key && row.fromColumn == column) {
      var r :| r in kept + [row] && FromKey(r) == key && r.fromColumn == column;
      assert r in kept;
    }
  }

  /** Lines 257-260: flag the row's from-column in its from-table, when that table is in the map. */
  method BackFillRow(tables: map<string, TableInfo>, row: ForeignKeyRow,
                     ghost tables0: map<string, TableInfo>, ghost kept: seq<ForeignKeyRow>)
    returns (tables': map<string, TableInfo>)
    requires FilledFrom(tables, tables0, kept)
    ensures FilledFrom(tables', tables0, kept + [row])
  {
    var fromKey := FromKey(row);
    tables' := tables;
    if fromKey in tables {
      var marked := MarkColumns(tables[fromKey].columns, row.fromColumn);
      tables' := tables[fromKey := tables[fromKey].(columns := marked)];
    }
    forall k | k in tables'
      ensures tables'[k] == tables0[k].(columns := BackFilled(tables0[k].columns, kept + [row], k))
    {
      var cols0 := tables0[k].columns;
      forall j | 0 <= j < |cols0| {
        MarkedByStep(kept, row, k, cols0[j].name);
      }
    }
  }

  /** The loop of lines 235-260: grouping by constraint in first-encounter order, and the back-fill of the flag. */
  method CollectForeignKeys(tables0: map<string, TableInfo>, rows: seq<ForeignKeyRow>, filterActive: bool, allowed: set<string>)
    returns (tables: map<string, TableInfo>, foreignKeys: seq<ForeignKeyInfo>)
    ensures tables.Keys == tables0.Keys
    ensures forall k :: k in tables ==>
      tables[k] == tables0[k].(columns := BackFilled(tables0[k].columns, KeptRows(rows, filterActive, allowed), k))
    ensures foreignKeys == ForeignKeysOf(KeptRows(rows, filterActive, allowed))
  {
    tables := tables0;
    var fkMap: map<string, ForeignKeyInfo> := map[];
    var order: seq<string> := [];
    ghost var kept: seq<ForeignKeyRow> := [];
    assert FilledFrom(tables, tables0, kept) by {
      assert forall k :: k in tables ==> BackFilled(tables0[k].columns, [], k) == tables0[k].columns;
    }
    var i := 0;
    while i < |rows|
      invariant 0 <= i <= |rows|
      invariant kept == KeptRows(rows[..i], filterActive, allowed)
      invariant Grouped(fkMap, order, kept)
      invariant FilledFrom(tables, tables0, kept)
    {
      var row := rows[i];
      var fromKey := FromKey(row);
      var toKey := ToKey(row);
      KeptRowsStep(rows, i, filterActive, allowed);
      if filterActive && (fromKey !in allowed || toKey !in allowed) {
        // skipped: neither the map nor any flag changes
      } else {
        fkMap, order := GroupRow(fkMap, order, row, kept);
        tables := BackFillRow(tables, row, tables0, kept);
        kept := kept + [row];
      }
      i := i + 1;
    }
    assert kept == KeptRows(rows, filterActive, allowed) by {
      assert rows[..i] == rows;
    }
    foreignKeys := seq(|order|, j requires 0 <= j < |order| => fkMap[order[j]]);
    GroupedValues(fkMap, order, kept);
  }

  /** The values of the map in insertion order are the relationships of the used rows. */
  lemma GroupedValues(fkMap: map<string, ForeignKeyInfo>, order: seq<string>, kept: seq<ForeignKeyRow>)
    requires Grouped(fkMap, order, kept)
    ensures seq(|order|, j requires 0 <= j < |order| => fkMap[order[j]]) == ForeignKeysOf(kept)
  {
  }

  // ---------------------------------------------------------------------------
  // The whole assembly
  // ---------------------------------------------------------------------------

  /**
   * The snapshot `fetch_schema` returns, stated directly: the admitted tables, each with
   * the columns of its key in row order and the flag of each column set exactly when a
   * used foreign-key row names it; and one relationship per constraint of the used rows.
   */
  function Assemble(tableRows: seq<TableRow>, columnRows: seq<ColumnRow>, fkRows: seq<ForeignKeyRow>,
                    tableFilter: Option<seq<string>>): (map<string, TableInfo>, seq<ForeignKeyInfo>)
  {
    var base := BuildTables(AdmitTables(tableRows, tableFilter));
    var kept := KeptRows(fkRows, FilterActive(tableFilter), base.Keys);
    (Filled(base, columnRows, kept), ForeignKeysOf(kept))
  }

  /** The tables of `base`, each with its columns in row order and their flags back-filled from `kept`. */
  function Filled(base: map<string, TableInfo>, columnRows: seq<ColumnRow>, kept: seq<ForeignKeyRow>): map<string, TableInfo>
  {
    map k | k in base :: base[k].(columns := BackFilled(ColumnsFor(columnRows, k), kept, k))
  }

  /** The used foreign-key rows of an assembly: the allowed set is the key set of the admitted tables. */
  function KeptOf(tableRows: seq<TableRow>, fkRows: seq<ForeignKeyRow>, tableFilter: Option<seq<string>>): seq<ForeignKeyRow>
  {
    KeptRows(fkRows, FilterActive(tableFilter), BuildTables(AdmitTables(tableRows, tableFilter)).Keys)
  }

  /** Lines 179-262, with the result sets as inputs. */
  method FetchSchema(tableRows: seq<TableRow>, columnRows: seq<ColumnRow>, fkRows: seq<ForeignKeyRow>,
                     tableFilter: Option<seq<string>>)
    returns (tables: map<string, TableInfo>, foreignKeys: seq<ForeignKeyInfo>)
    ensures (tables, foreignKeys) == Assemble(tableRows, columnRows, fkRows, tableFilter)
  {
    var admitted := AdmitTables(tableRows, tableFilter);
    tables := BuildTables(admitted);
    var allowedKeys := tables.Keys;
    ghost var base := tables;
    BuildTablesSpec(admitted);
    tables := AttachColumns(tables, columnRows);
    ghost var attached := tables;
    tables, foreignKeys := CollectForeignKeys(tables, fkRows, FilterActive(tableFilter), allowedKeys);
    FilledTables(base, attached, tables, columnRows, KeptRows(fkRows, FilterActive(tableFilter), allowedKeys));
  }

  /** Attaching the columns and then back-filling the flags gives the tables of `Assemble`. */
  lemma FilledTables(base: map<string, TableInfo>, attached: map<string, TableInfo>, tables: map<string, TableInfo>,
                     columnRows: seq<ColumnRow>, kept: seq<ForeignKeyRow>)
    requires forall k :: k in base ==> base[k].columns == []
    requires attached.Keys == base.Keys
    requires forall k :: k in attached ==> attached[k] == base[k].(columns := base[k].columns + ColumnsFor(columnRows, k))
    requires tables.Keys == attached.Keys
    requires forall k :: k in tables ==> tables[k] == attached[k].(columns := BackFilled(attached[k].columns, kept, k))
    ensures tables == Filled(base, columnRows, kept)
  {
    var expected := Filled(base, columnRows, kept);
    forall k | k in tables ensures tables[k] == expected[k] {
      assert base[k].columns + ColumnsFor(columnRows, k) == ColumnsFor(columnRows, k);
    }
  }
}
