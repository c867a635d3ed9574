/**
 * Properties of the snapshot `fetch_schema` assembles (db/query.py:179-262): which
 * tables it holds, the columns of each, which foreign-key rows it uses, and how
 * those rows become relationships and foreign-key flags.
 */
module SchemaFacts {
  import opened Wrappers
  import opened Text
  import opened Schema

  // ---------------------------------------------------------------------------
  // Tables and columns
  // ---------------------------------------------------------------------------

  /**
   * The keys are exactly the "schema.table" keys of the admitted rows, and each table
   * carries the name and schema of the last admitted row with its key.
   */
  lemma AssembledTables(tableRows: seq<TableRow>, columnRows: seq<ColumnRow>, fkRows: seq<ForeignKeyRow>,
                        tableFilter: Option<seq<string>>)
    ensures var tables := Assemble(tableRows, columnRows, fkRows, tableFilter).0;
      forall k :: k in tables <==> exists r :: r in tableRows && Admits(tableFilter, r) && TableKey(r) == k
    ensures var tables := Assemble(tableRows, columnRows, fkRows, tableFilter).0;
      var admitted := AdmitTables(tableRows, tableFilter);
      forall k :: k in tables ==>
        exists i :: (LastWithKey(admitted, i, k) &&
          tables[k].name == admitted[i].tableName && tables[k].schema == admitted[i].schemaName &&
          k == QualifiedKey(tables[k].schema, tables[k].name))
  {
    var admitted := AdmitTables(tableRows, tableFilter);
    BuildTablesSpec(admitted);
  }

  /**
   * A table's columns are the ones its key's column rows create, in row order (see
   * `ColumnsForAppend`); only the foreign-key flag differs, and it is set exactly
   * when a used foreign-key row names the column as its source in this table.
   */
  lemma AssembledColumns(tableRows: seq<TableRow>, columnRows: seq<ColumnRow>, fkRows: seq<ForeignKeyRow>,
                         tableFilter: Option<seq<string>>)
    ensures var tables := Assemble(tableRows, columnRows, fkRows, tableFilter).0;
      forall k :: k in tables ==> |tables[k].columns| == |ColumnsFor(columnRows, k)|
    ensures var tables := Assemble(tableRows, columnRows, fkRows, tableFilter).0;
      var kept := KeptOf(tableRows, fkRows, tableFilter);
      forall k, j :: k in tables && 0 <= j < |tables[k].columns| ==>
        var c := tables[k].columns[j];
        var c0 := ColumnsFor(columnRows, k)[j];
        && c.name == c0.name && c.dataType == c0.dataType
        && c.isNullable == c0.isNullable && c.isPrimaryKey == c0.isPrimaryKey
        && (c.isForeignKey <==> MarkedBy(kept, k, c.name))
  {
    var tables := Assemble(tableRows, columnRows, fkRows, tableFilter).0;
    forall k, j | k in tables && 0 <= j < |ColumnsFor(columnRows, k)|
      ensures !ColumnsFor(columnRows, k)[j].isForeignKey
    {
      assert ColumnsFor(columnRows, k)[j] in ColumnsFor(columnRows, k);
    }
  }

  /**
   * Without an active filter every foreign-key row is used, whether or not its
   * endpoints are tables of the snapshot; with one, a row is used exactly when both
   * its endpoints are.
   */
  lemma AssembledKeptRows(tableRows: seq<TableRow>, columnRows: seq<ColumnRow>, fkRows: seq<ForeignKeyRow>,
                          tableFilter: Option<seq<string>>)
    ensures !FilterActive(tableFilter) ==> KeptOf(tableRows, fkRows, tableFilter) == fkRows
    ensures var tables := Assemble(tableRows, columnRows, fkRows, tableFilter).0;
      FilterActive(tableFilter) ==>
        forall r :: r in KeptOf(tableRows, fkRows, tableFilter) <==>
          r in fkRows && FromKey(r) in tables && ToKey(r) in tables
  {
    var base := BuildTables(AdmitTables(tableRows, tableFilter));
    assert Assemble(tableRows, columnRows, fkRows, tableFilter).0.Keys == base.Keys;
  }

  // ---------------------------------------------------------------------------
  // Relationships
  // ---------------------------------------------------------------------------

  /** The relationship at position `i` belongs to the `i`-th distinct constraint name. */
  lemma RelationshipName(kept: seq<ForeignKeyRow>, i: int)
    requires 0 <= i < |ForeignKeysOf(kept)|
    ensures ForeignKeysOf(kept)[i].constraintName == Distinct(ConstraintNames(kept))[i]
    ensures ForeignKeysOf(kept)[i].constraintName in ConstraintNames(kept)
    ensures ForeignKeysOf(kept)[i] == Relationship(kept, Distinct(ConstraintNames(kept))[i])
  {
    assert Distinct(ConstraintNames(kept))[i] in Distinct(ConstraintNames(kept));
  }

  /** There is exactly one relationship per constraint name of the used rows. */
  lemma OneRelationshipPerConstraint(kept: seq<ForeignKeyRow>)
    ensures forall i, j :: 0 <= i < j < |ForeignKeysOf(kept)| ==>
      ForeignKeysOf(kept)[i].constraintName != ForeignKeysOf(kept)[j].constraintName
    ensures forall n :: n in ConstraintNames(kept) <==>
      exists i :: 0 <= i < |ForeignKeysOf(kept)| && ForeignKeysOf(kept)[i].constraintName == n
  {
    var fks := ForeignKeysOf(kept);
    var names := Distinct(ConstraintNames(kept));
    assert |fks| == |names|;
    DistinctSpec(ConstraintNames(kept));
    forall i | 0 <= i < |fks| ensures fks[i].constraintName == names[i] {
      RelationshipName(kept, i);
    }
    forall n | n in ConstraintNames(kept)
      ensures exists i :: 0 <= i < |fks| && fks[i].constraintName == n
    {
      var i :| 0 <= i < |names| && names[i] == n;
      assert fks[i].constraintName == n;
    }
  }

  /** The column lists of constraint `name`'s relationship, against the constraint's rows. */
  lemma RelationshipColumnsNamed(kept: seq<ForeignKeyRow>, name: string)
    requires name in ConstraintNames(kept)
    ensures var fk := Relationship(kept, name);
      var rs := RowsNamed(kept, name);
      && fk.constraintName == name
      && |fk.fromColumns| == |fk.toColumns| == |rs| > 0
      && (forall j :: 0 <= j < |rs| ==> fk.fromColumns[j] == rs[j].fromColumn && fk.toColumns[j] == rs[j].toColumn)
      && (forall j :: 0 <= j < |rs| ==> rs[j] in kept && rs[j].constraintName == name)
  {
    RowsNamedPresent(kept, name);
    var rs := RowsNamed(kept, name);
    forall j | 0 <= j < |rs| ensures rs[j] in kept && rs[j].constraintName == name {
      assert rs[j] in rs;
    }
  }

  /**
   * The column lists of a relationship are the columns of its constraint's used rows,
   * index by index in row order: equal in length, and each pair comes from one used
   * row of that constraint.
   */
  lemma RelationshipColumns(kept: seq<ForeignKeyRow>, i: int)
    requires 0 <= i < |ForeignKeysOf(kept)|
    ensures var fk := ForeignKeysOf(kept)[i];
      var rs := RowsNamed(kept, fk.constraintName);
      && |fk.fromColumns| == |fk.toColumns| == |rs| > 0
      && (forall j :: 0 <= j < |rs| ==> fk.fromColumns[j] == rs[j].fromColumn && fk.toColumns[j] == rs[j].toColumn)
      && (forall j :: 0 <= j < |rs| ==> rs[j] in kept && rs[j].constraintName == fk.constraintName)
  {
    RelationshipName(kept, i);
    RelationshipColumnsNamed(kept, Distinct(ConstraintNames(kept))[i]);
  }

  /** Position `i` holds the first row of constraint `name`. */
  predicate FirstNamed(rows: seq<ForeignKeyRow>, i: int, name: string)
  {
    0 <= i < |rows| && rows[i].constraintName == name &&
    forall j :: 0 <= j < i ==> rows[j].constraintName != name
  }

  /** The first row of a constraint's group is the constraint's first row. */
  lemma {:induction false} RowsNamedFirst(rows: seq<ForeignKeyRow>, name: string)
    requires |RowsNamed(rows, name)| > 0
    ensures exists i :: FirstNamed(rows, i, name) && rows[i] == RowsNamed(rows, name)[0]
    decreases |rows|
  {
    if rows[0].constraintName == name {
      assert FirstNamed(rows, 0, name);
    } else {
      assert RowsNamed(rows, name) == RowsNamed(rows[1..], name);
      RowsNamedFirst(rows[1..], name);
      var i :| FirstNamed(rows[1..], i, name) && rows[1..][i] == RowsNamed(rows, name)[0];
      assert FirstNamed(rows, i + 1, name);
    }
  }

  /** The first used row of a constraint fixes the relationship's endpoints and its uniqueness. */
  lemma RelationshipEndpoints(kept: seq<ForeignKeyRow>, i: int)
    requires 0 <= i < |ForeignKeysOf(kept)|
    ensures var fk := ForeignKeysOf(kept)[i];
      exists p :: (FirstNamed(kept, p, fk.constraintName) &&
        fk.fromTable == kept[p].fromTable && fk.fromSchema == kept[p].fromSchema &&
        fk.toTable == kept[p].toTable && fk.toSchema == kept[p].toSchema &&
        fk.isUnique == kept[p].isUnique)
  {
    RelationshipName(kept, i);
    var fk := ForeignKeysOf(kept)[i];
    RowsNamedPresent(kept, fk.constraintName);
    RowsNamedFirst(kept, fk.constraintName);
  }

  /** Relationships appear in the order their constraint names are first met among the used rows. */
  lemma RelationshipOrder(kept: seq<ForeignKeyRow>)
    ensures forall i :: 0 <= i < |ForeignKeysOf(kept)| ==> ForeignKeysOf(kept)[i].constraintName in ConstraintNames(kept)
    ensures forall i, j :: 0 <= i < j < |ForeignKeysOf(kept)| ==>
      FirstIndex(ConstraintNames(kept), ForeignKeysOf(kept)[i].constraintName) <
      FirstIndex(ConstraintNames(kept), ForeignKeysOf(kept)[j].constraintName)
  {
    DistinctSpec(ConstraintNames(kept));
    forall i | 0 <= i < |ForeignKeysOf(kept)|
      ensures ForeignKeysOf(kept)[i].constraintName == Distinct(ConstraintNames(kept))[i]
    {
      RelationshipName(kept, i);
    }
  }

  /** With an active filter, both endpoints of every relationship are tables of the snapshot. */
  lemma FilteredEndpoints(tableRows: seq<TableRow>, columnRows: seq<ColumnRow>, fkRows: seq<ForeignKeyRow>,
                          tableFilter: Option<seq<string>>)
    requires FilterActive(tableFilter)
    ensures var (tables, fks) := Assemble(tableRows, columnRows, fkRows, tableFilter);
      forall i :: 0 <= i < |fks| ==>
        QualifiedKey(fks[i].fromSchema, fks[i].fromTable) in tables &&
        QualifiedKey(fks[i].toSchema, fks[i].toTable) in tables
  {
    var tables := Assemble(tableRows, columnRows, fkRows, tableFilter).0;
    var kept := KeptOf(tableRows, fkRows, tableFilter);
    var fks := ForeignKeysOf(kept);
    AssembledKeptRows(tableRows, columnRows, fkRows, tableFilter);
    forall i | 0 <= i < |fks|
      ensures QualifiedKey(fks[i].fromSchema, fks[i].fromTable) in tables
      ensures QualifiedKey(fks[i].toSchema, fks[i].toTable) in tables
    {
      RelationshipEndpoints(kept, i);
      var p :| FirstNamed(kept, p, fks[i].constraintName) &&
        fks[i].fromTable == kept[p].fromTable && fks[i].fromSchema == kept[p].fromSchema &&
        fks[i].toTable == kept[p].toTable && fks[i].toSchema == kept[p].toSchema &&
        fks[i].isUnique == kept[p].isUnique;
      assert kept[p] in kept;
    }
  }

  // ---------------------------------------------------------------------------
  // Flags and relationships agree
  // ---------------------------------------------------------------------------

  /** All rows of one constraint name the same source table, as a catalog's rows do. */
  predicate SameSource(rows: seq<ForeignKeyRow>)
  {
    forall r1, r2 :: r1 in rows && r2 in rows && r1.constraintName == r2.constraintName ==>
      FromKey(r1) == FromKey(r2)
  }

  /** The source columns of a relationship are those of its constraint's rows, all from its source table. */
  lemma RelationshipSources(kept: seq<ForeignKeyRow>, name: string)
    requires name in ConstraintNames(kept) && SameSource(kept)
    ensures var fk := Relationship(kept, name);
      forall c :: c in fk.fromColumns <==> exists r :: r in kept && r.constraintName == name && r.fromColumn == c
    ensures var fk := Relationship(kept, name);
      forall r :: r in kept && r.constraintName == name ==> FromKey(r) == QualifiedKey(fk.fromSchema, fk.fromTable)
  {
    RelationshipColumnsNamed(kept, name);
    var fk := Relationship(kept, name);
    var rs := RowsNamed(kept, name);
    forall c | c in fk.fromColumns
      ensures exists r :: r in kept && r.constraintName == name && r.fromColumn == c
    {
      var j :| 0 <= j < |fk.fromColumns| && fk.fromColumns[j] == c;
      assert rs[j] in kept && rs[j].constraintName == name;
    }
    forall r | r in kept && r.constraintName == name
      ensures r.fromColumn in fk.fromColumns
      ensures FromKey(r) == QualifiedKey(fk.fromSchema, fk.fromTable)
    {
      assert r in rs;
      var j :| 0 <= j < |rs| && rs[j] == r;
      assert fk.fromColumns[j] == r.fromColumn;
      assert rs[0] in kept && rs[0].constraintName == name;
      assert FromKey(r) == FromKey(rs[0]);
      assert fk.fromSchema == rs[0].fromSchema && fk.fromTable == rs[0].fromTable;
    }
  }

  /** The relationship of every constraint name of the used rows is in the list. */
  lemma RelationshipListed(kept: seq<ForeignKeyRow>, name: string)
    requires name in ConstraintNames(kept)
    ensures exists i :: 0 <= i < |ForeignKeysOf(kept)| && ForeignKeysOf(kept)[i] == Relationship(kept, name)
  {
    var names := Distinct(ConstraintNames(kept));
    var i :| 0 <= i < |names| && names[i] == name;
    RelationshipName(kept, i);
  }

  /** Whether a used row names `column` of table `key` is whether some relationship from `key` lists it. */
  lemma MarkedByRelationship(kept: seq<ForeignKeyRow>, key: string, column: string)
    requires SameSource(kept)
    ensures MarkedBy(kept, key, column) <==>
      exists i :: 0 <= i < |ForeignKeysOf(kept)| &&
        QualifiedKey(ForeignKeysOf(kept)[i].fromSchema, ForeignKeysOf(kept)[i].fromTable) == key &&
        column in ForeignKeysOf(kept)[i].fromColumns
  {
    var fks := ForeignKeysOf(kept);
    if MarkedBy(kept, key, column) {
      var r :| r in kept && FromKey(r) == key && r.fromColumn == column;
      var p :| 0 <= p < |kept| && kept[p] == r;
      assert ConstraintNames(kept)[p] == r.constraintName;
      RelationshipSources(kept, r.constraintName);
      RelationshipListed(kept, r.constraintName);
    }
    if i :| 0 <= i < |fks| && QualifiedKey(fks[i].fromSchema, fks[i].fromTable) == key && column in fks[i].fromColumns {
      RelationshipName(kept, i);
      var name := Distinct(ConstraintNames(kept))[i];
      RelationshipSources(kept, name);
      var r :| r in kept && r.constraintName == name && r.fromColumn == column;
      assert FromKey(r) == key;
    }
  }

  /**
   * When the rows of each constraint agree on the source table, a column is flagged
   * exactly when some relationship from its table lists it among its source columns.
   */
  lemma FlagsMatchRelationships(tableRows: seq<TableRow>, columnRows: seq<ColumnRow>, fkRows: seq<ForeignKeyRow>,
                                tableFilter: Option<seq<string>>)
    requires SameSource(fkRows)
    ensures var (tables, fks) := Assemble(tableRows, columnRows, fkRows, tableFilter);
      forall k, j :: k in tables && 0 <= j < |tables[k].columns| ==>
        (tables[k].columns[j].isForeignKey <==>
          exists i :: 0 <= i < |fks| && QualifiedKey(fks[i].fromSchema, fks[i].fromTable) == k &&
            tables[k].columns[j].name in fks[i].fromColumns)
  {
    var tables := Assemble(tableRows, columnRows, fkRows, tableFilter).0;
    var kept := KeptOf(tableRows, fkRows, tableFilter);
    AssembledColumns(tableRows, columnRows, fkRows, tableFilter);
    forall k, j | k in tables && 0 <= j < |tables[k].columns|
      ensures MarkedBy(kept, k, tables[k].columns[j].name) <==>
        exists i :: 0 <= i < |ForeignKeysOf(kept)| &&
          QualifiedKey(ForeignKeysOf(kept)[i].fromSchema, ForeignKeysOf(kept)[i].fromTable) == k &&
          tables[k].columns[j].name in ForeignKeysOf(kept)[i].fromColumns
    {
      MarkedByRelationship(kept, k, tables[k].columns[j].name);
    }
  }
}
