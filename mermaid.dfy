/**
 * The Mermaid erDiagram serialiser (generator/mermaid.py): a fenced block with one
 * entity block per table, in ascending key order, a blank line, and one
 * relationship line per foreign key, in list order.
 */
module Mermaid {
  import opened Text
  import opened Schema

  // ---------------------------------------------------------------------------
  // Attribute lines, notation and label
  // ---------------------------------------------------------------------------

  /** The words of an attribute line: type and name, then `PK`, `FK` and the nullable comment, each when it applies. */
  function ColumnTokens(col: ColumnInfo): seq<string>
  {
    [col.dataType, col.name] + Optional(col.isPrimaryKey, "PK") + Optional(col.isForeignKey, "FK")
      + Optional(col.isNullable, "\"nullable\"")
  }

  /** The one-word list `[token]` when `present`, otherwise nothing. */
  function Optional(present: bool, token: string): seq<string>
  {
    if present then [token] else []
  }

  /** `_column_line`: eight spaces, then the words separated by single spaces. */
  function ColumnLine(col: ColumnInfo): string
  {
    "        " + Join(ColumnTokens(col), " ")
  }

  /** Joining parts with an optional last part adds the separator and that part when it is present. */
  lemma JoinOptional(parts: seq<string>, present: bool, x: string, sep: string)
    requires |parts| > 0
    ensures Join(parts + Optional(present, x), sep) == Join(parts, sep) + (if present then sep + x else "")
  {
    if present {
      JoinAppend(parts, x, sep);
    } else {
      assert parts + [] == parts;
    }
  }

  /** An attribute line is the type and name followed by the optional tokens in their fixed order. */
  lemma ColumnLineForm(col: ColumnInfo)
    ensures ColumnLine(col) ==
      "        " + col.dataType + " " + col.name
      + (if col.isPrimaryKey then " PK" else "")
      + (if col.isForeignKey then " FK" else "")
      + (if col.isNullable then " \"nullable\"" else "")
  {
    var base := [col.dataType, col.name];
    var pk := base + Optional(col.isPrimaryKey, "PK");
    var fk := pk + Optional(col.isForeignKey, "FK");
    var p: string := if col.isPrimaryKey then " " + "PK" else "";
    var f: string := if col.isForeignKey then " " + "FK" else "";
    var n: string := if col.isNullable then " " + "\"nullable\"" else "";
    var j0 := Join(base, " ");
    assert j0 == col.dataType + " " + col.name by {
      assert base[1..] == [col.name];
      assert Join(base[1..], " ") == col.name;
    }
    JoinOptional(base, col.isPrimaryKey, "PK", " ");
    JoinOptional(pk, col.isForeignKey, "FK", " ");
    JoinOptional(fk, col.isNullable, "\"nullable\"", " ");
    assert Join(ColumnTokens(col), " ") == ((j0 + p) + f) + n;
    assert p == (if col.isPrimaryKey then " PK" else "");
    assert f == (if col.isForeignKey then " FK" else "");
    assert n == (if col.isNullable then " \"nullable\"" else "");
    calc {
      ColumnLine(col);
      "        " + (((j0 + p) + f) + n);
      { Concat4("        ", j0, p, f, n); }
      (((("        " + j0) + p) + f) + n);
      { Concat2("        ", col.dataType, " ", col.name); }
      "        " + col.dataType + " " + col.name + p + f + n;
    }
  }

  lemma Concat2(w: string, a: string, b: string, c: string)
    ensures w + ((a + b) + c) == ((w + a) + b) + c
  {
  }

  lemma Concat4(w: string, a: string, b: string, c: string, d: string)
    ensures w + (((a + b) + c) + d) == (((w + a) + b) + c) + d
  {
  }

  /** When type and name contain no space, splitting the line after its indent on spaces gives back the words. */
  lemma ColumnLineTokens(col: ColumnInfo)
    requires ' ' !in col.dataType && ' ' !in col.name
    ensures |ColumnLine(col)| >= 8 && Split(ColumnLine(col)[8..], ' ') == ColumnTokens(col)
  {
    var tokens := ColumnTokens(col);
    assert ColumnLine(col)[8..] == Join(tokens, [' ']);
    forall i | 0 <= i < |tokens| ensures ' ' !in tokens[i] {
    }
    SplitJoin(tokens, ' ');
  }

  /** `_relationship_notation`: one-to-one for a unique key, one-to-many otherwise. */
  function RelationshipNotation(fk: ForeignKeyInfo): (notation: string)
    ensures notation == "||--||" <==> fk.isUnique
    ensures notation == "||--o{" <==> !fk.isUnique
  {
    if fk.isUnique then "||--||" else "||--o{"
  }

  /** `_fk_label`: the source columns joined by ", ". */
  function FkLabel(fk: ForeignKeyInfo): string
  {
    Join(fk.fromColumns, ", ")
  }

  /** A single-column key is labelled by its column; each further column adds ", " and its name at the end. */
  lemma FkLabelColumns(fk: ForeignKeyInfo, column: string)
    ensures |fk.fromColumns| == 1 ==> FkLabel(fk) == fk.fromColumns[0]
    ensures |fk.fromColumns| > 0 ==>
      FkLabel(fk.(fromColumns := fk.fromColumns + [column])) == FkLabel(fk) + ", " + column
  {
    if |fk.fromColumns| > 0 {
      JoinAppend(fk.fromColumns, column, ", ");
    }
  }

  // ---------------------------------------------------------------------------
  // Lines of the diagram
  // ---------------------------------------------------------------------------

  const Fence: string := "```"

  const Header: seq<string> := [Fence + "mermaid", "erDiagram"]

  function OpenLine(name: string): string
  {
    "    " + name + " {"
  }

  const CloseLine: string := "    }"

  /** The attribute lines of a table, one per column in stored order. */
  function ColumnLines(columns: seq<ColumnInfo>): (lines: seq<string>)
    ensures |lines| == |columns|
  {
    seq(|columns|, j requires 0 <= j < |columns| => ColumnLine(columns[j]))
  }

  /** A table's entity block. */
  function Block(t: TableInfo): seq<string>
  {
    [OpenLine(t.name)] + ColumnLines(t.columns) + [CloseLine]
  }

  /** The entity blocks of the tables under `keys`, in the order of `keys`. */
  function EntityLines(tables: map<string, TableInfo>, keys: seq<string>): seq<string>
    requires forall k :: k in keys ==> k in tables
    decreases |keys|
  {
    if keys == [] then []
    else EntityLines(tables, keys[..|keys| - 1]) + Block(tables[keys[|keys| - 1]])
  }

  function RelationshipLine(fk: ForeignKeyInfo): string
  {
    "    " + fk.toTable + " " + RelationshipNotation(fk) + " " + fk.fromTable + " : \"" + FkLabel(fk) + "\""
  }

  function RelationshipLines(fks: seq<ForeignKeyInfo>): (lines: seq<string>)
    ensures |lines| == |fks|
  {
    seq(|fks|, i requires 0 <= i < |fks| => RelationshipLine(fks[i]))
  }

  /** The header, the entity lines, a blank line, the relationship lines and the closing fence. */
  function Layout(entities: seq<string>, relationships: seq<string>): seq<string>
  {
    Header + entities + [""] + relationships + [Fence]
  }

  /** The entity blocks of all tables, in ascending key order. */
  function Entities(tables: map<string, TableInfo>): seq<string>
  {
    EntityLines(tables, SortedKeys(tables.Keys))
  }

  /** Every line `build_diagram` emits, in order. */
  function DiagramLines(tables: map<string, TableInfo>, fks: seq<ForeignKeyInfo>): seq<string>
  {
    Layout(Entities(tables), RelationshipLines(fks))
  }

  /** The text `build_diagram` returns: the lines joined by "\n", without a final line break. */
  function Diagram(tables: map<string, TableInfo>, fks: seq<ForeignKeyInfo>): string
  {
    Join(DiagramLines(tables, fks), "\n")
  }

  /** One more key adds that key's block at the end. */
  lemma EntityLinesStep(tables: map<string, TableInfo>, keys: seq<string>, i: int)
    requires forall k :: k in keys ==> k in tables
    requires 0 <= i < |keys|
    ensures EntityLines(tables, keys[..i + 1]) == EntityLines(tables, keys[..i]) + Block(tables[keys[i]])
  {
    assert keys[..i + 1][..i] == keys[..i];
  }

  /** One more element adds its line at the end. */
  lemma LinesStep(columns: seq<ColumnInfo>, fks: seq<ForeignKeyInfo>, j: int, n: int)
    ensures 0 <= j < |columns| ==>
      ColumnLines(columns[..j + 1]) == ColumnLines(columns[..j]) + [ColumnLine(columns[j])]
    ensures 0 <= n < |fks| ==>
      RelationshipLines(fks[..n + 1]) == RelationshipLines(fks[..n]) + [RelationshipLine(fks[n])]
  {
  }

  /** generator/mermaid.py:68-71: the open line, one attribute line per column in stored order, the close line. */
  method AppendBlock(lines: seq<string>, table: TableInfo) returns (lines': seq<string>)
    ensures lines' == lines + Block(table)
  {
    lines' := lines + [OpenLine(table.name)];
    var j := 0;
    while j < |table.columns|
      invariant 0 <= j <= |table.columns|
      invariant lines' == lines + [OpenLine(table.name)] + ColumnLines(table.columns[..j])
    {
      LinesStep(table.columns, [], j, 0);
      lines' := lines' + [ColumnLine(table.columns[j])];
      j := j + 1;
    }
    assert table.columns[..j] == table.columns;
    lines' := lines' + [CloseLine];
  }

  /** generator/mermaid.py:77-80: one relationship line per foreign key, in list order. */
  method AppendRelationships(lines: seq<string>, foreignKeys: seq<ForeignKeyInfo>) returns (lines': seq<string>)
    ensures lines' == lines + RelationshipLines(foreignKeys)
  {
    lines' := lines;
    var n := 0;
    while n < |foreignKeys|
      invariant 0 <= n <= |foreignKeys|
      invariant lines' == lines + RelationshipLines(foreignKeys[..n])
    {
      LinesStep([], foreignKeys, 0, n);
      lines' := lines' + [RelationshipLine(foreignKeys[n])];
      n := n + 1;
    }
    assert foreignKeys[..n] == foreignKeys;
  }

  /** generator/mermaid.py:66-71: the entity blocks of `keys`, in the order of `keys`. */
  method AppendBlocks(lines: seq<string>, tables: map<string, TableInfo>, keys: seq<string>) returns (lines': seq<string>)
    requires forall k :: k in keys ==> k in tables
    ensures lines' == lines + EntityLines(tables, keys)
  {
    lines' := lines;
    var i := 0;
    while i < |keys|
      invariant 0 <= i <= |keys|
      invariant lines' == lines + EntityLines(tables, keys[..i])
    {
      lines' := AppendBlock(lines', tables[keys[i]]);
      EntityLinesStep(tables, keys, i);
      i := i + 1;
    }
    assert keys[..i] == keys;
  }

  /** generator/mermaid.py:45-83. */
  method BuildDiagram(tables: map<string, TableInfo>, foreignKeys: seq<ForeignKeyInfo>) returns (text: string)
    ensures text == Diagram(tables, foreignKeys)
  {
    var lines := [Fence + "mermaid", "erDiagram"];
    lines := AppendBlocks(lines, tables, SortedKeys(tables.Keys));
    lines := lines + [""];
    lines := AppendRelationships(lines, foreignKeys);
    lines := lines + [Fence];
    text := Join(lines, "\n");
  }

  // ---------------------------------------------------------------------------
  // Properties of the diagram
  // ---------------------------------------------------------------------------

  /** Entity blocks concatenate: the blocks of `a + b` are those of `a` followed by those of `b`. */
  lemma {:induction false} EntityLinesAppend(tables: map<string, TableInfo>, a: seq<string>, b: seq<string>)
    requires forall k :: k in a + b ==> k in tables
    ensures EntityLines(tables, a + b) == EntityLines(tables, a) + EntityLines(tables, b)
    decreases |b|
  {
    if b == [] {
      assert a + b == a;
    } else {
      var init := b[..|b| - 1];
      assert (a + b)[..|a + b| - 1] == a + init;
      assert (a + b)[|a + b| - 1] == b[|b| - 1];
      assert forall k :: k in a + init ==> k in a + b;
      assert forall k :: k in init ==> k in b;
      var block := Block(tables[b[|b| - 1]]);
      calc {
        EntityLines(tables, a + b);
        EntityLines(tables, a + init) + block;
        { EntityLinesAppend(tables, a, init); }
        (EntityLines(tables, a) + EntityLines(tables, init)) + block;
        EntityLines(tables, a) + (EntityLines(tables, init) + block);
        EntityLines(tables, a) + EntityLines(tables, b);
      }
    }
  }

  /** The block of the `m`-th key sits between the blocks of the keys before it and after it. */
  lemma BlockAt(tables: map<string, TableInfo>, keys: seq<string>, m: int)
    requires forall k :: k in keys ==> k in tables
    requires 0 <= m < |keys|
    ensures EntityLines(tables, keys) ==
      EntityLines(tables, keys[..m]) + Block(tables[keys[m]]) + EntityLines(tables, keys[m + 1..])
  {
    assert keys == keys[..m] + [keys[m]] + keys[m + 1..];
    EntityLinesAppend(tables, keys[..m] + [keys[m]], keys[m + 1..]);
    EntityLinesAppend(tables, keys[..m], [keys[m]]);
    assert EntityLines(tables, [keys[m]]) == Block(tables[keys[m]]) by {
      assert [keys[m]][..0] == [];
    }
  }

  /** An entity block is the open line, one attribute line per column in stored order, and the close line. */
  lemma BlockShape(t: TableInfo)
    ensures |Block(t)| == |t.columns| + 2
    ensures Block(t)[0] == "    " + t.name + " {"
    ensures Block(t)[|t.columns| + 1] == "    }"
    ensures forall j :: 0 <= j < |t.columns| ==> Block(t)[j + 1] == ColumnLine(t.columns[j])
    ensures t.columns == [] ==> Block(t) == ["    " + t.name + " {", "    }"]
  {
  }

  /** The number of lines of the entity blocks of `keys`: two per table plus one per column. */
  function BlockLineCount(tables: map<string, TableInfo>, keys: seq<string>): nat
    requires forall k :: k in keys ==> k in tables
    decreases |keys|
  {
    if keys == [] then 0
    else BlockLineCount(tables, keys[..|keys| - 1]) + |tables[keys[|keys| - 1]].columns| + 2
  }

  lemma {:induction false} EntityLinesCount(tables: map<string, TableInfo>, keys: seq<string>)
    requires forall k :: k in keys ==> k in tables
    ensures |EntityLines(tables, keys)| == BlockLineCount(tables, keys)
    decreases |keys|
  {
    if keys != [] {
      EntityLinesCount(tables, keys[..|keys| - 1]);
      BlockShape(tables[keys[|keys| - 1]]);
    }
  }

  /** Positions in the concatenation that makes up the diagram's lines. */
  lemma LayoutPositions(entities: seq<string>, relationships: seq<string>)
    ensures var lines := Layout(entities, relationships);
      && |lines| == 4 + |entities| + |relationships|
      && lines[0] == "```mermaid" && lines[1] == "erDiagram" && lines[|lines| - 1] == "```"
      && lines[2..2 + |entities|] == entities
      && lines[2 + |entities|] == ""
      && (forall i :: 0 <= i < |relationships| ==> lines[3 + |entities| + i] == relationships[i])
  {
    var lines := Layout(entities, relationships);
    assert lines[2..2 + |entities|] == entities;
    forall i | 0 <= i < |relationships| ensures lines[3 + |entities| + i] == relationships[i] {
    }
  }

  /** The diagram has 4 + Σ(|columns| + 2) + |foreign keys| lines. */
  lemma DiagramLineCount(tables: map<string, TableInfo>, fks: seq<ForeignKeyInfo>)
    ensures |DiagramLines(tables, fks)| == 4 + BlockLineCount(tables, SortedKeys(tables.Keys)) + |fks|
  {
    EntityLinesCount(tables, SortedKeys(tables.Keys));
  }

  /** The fence and `erDiagram` come first, and the closing fence last. */
  lemma DiagramFrame(tables: map<string, TableInfo>, fks: seq<ForeignKeyInfo>)
    ensures var lines := DiagramLines(tables, fks);
      |lines| >= 4 && lines[0] == "```mermaid" && lines[1] == "erDiagram" && lines[|lines| - 1] == "```"
  {
    LayoutPositions(Entities(tables), RelationshipLines(fks));
  }

  /**
   * After the header come the entity blocks in ascending key order, exactly one blank
   * line, and one relationship line per foreign key in list order.
   */
  lemma DiagramSections(tables: map<string, TableInfo>, fks: seq<ForeignKeyInfo>)
    ensures var lines := DiagramLines(tables, fks);
      var entities := Entities(tables);
      && |lines| == 4 + |entities| + |fks|
      && lines[2..2 + |entities|] == entities
      && lines[2 + |entities|] == ""
      && (forall i :: 0 <= i < |fks| ==> lines[3 + |entities| + i] == RelationshipLine(fks[i]))
  {
    SectionsOf(DiagramLines(tables, fks), Entities(tables), fks);
  }

  lemma SectionsOf(lines: seq<string>, entities: seq<string>, fks: seq<ForeignKeyInfo>)
    requires lines == Layout(entities, RelationshipLines(fks))
    ensures |lines| == 4 + |entities| + |fks|
    ensures lines[2..2 + |entities|] == entities
    ensures lines[2 + |entities|] == ""
    ensures forall i :: 0 <= i < |fks| ==> lines[3 + |entities| + i] == RelationshipLine(fks[i])
  {
    var relationships := RelationshipLines(fks);
    LayoutPositions(entities, relationships);
    forall i | 0 <= i < |fks| ensures lines[3 + |entities| + i] == RelationshipLine(fks[i]) {
      assert lines[3 + |entities| + i] == relationships[i];
    }
  }

  /**
   * The entity part depends on the key set alone: any strictly ascending listing of the
   * keys gives the same blocks as the sorted one.
   */
  lemma EntitiesInKeyOrder(tables: map<string, TableInfo>, keys: seq<string>)
    requires StrictlySorted(keys)
    requires forall k :: k in keys <==> k in tables
    ensures EntityLines(tables, keys) == Entities(tables)
  {
    SortedUnique(keys, SortedKeys(tables.Keys));
  }

  /** The relationship line: target, notation, source and the quoted label, single-space separated. */
  lemma RelationshipLineForm(fk: ForeignKeyInfo)
    ensures fk.isUnique ==>
      RelationshipLine(fk) == "    " + fk.toTable + " ||--|| " + fk.fromTable + " : \"" + Join(fk.fromColumns, ", ") + "\""
    ensures !fk.isUnique ==>
      RelationshipLine(fk) == "    " + fk.toTable + " ||--o{ " + fk.fromTable + " : \"" + Join(fk.fromColumns, ", ") + "\""
  {
    var w := "    " + fk.toTable;
    var n := RelationshipNotation(fk);
    var m := if fk.isUnique then " ||--|| " else " ||--o{ ";
    assert " " + n + " " == m;
    Concat2(w, " ", n, " ");
  }

  // ---------------------------------------------------------------------------
  // Line structure of the text
  // ---------------------------------------------------------------------------

  /** No table name, column name, type, foreign-key table or source column holds a line break. */
  predicate NoLineBreaks(tables: map<string, TableInfo>, fks: seq<ForeignKeyInfo>)
  {
    && (forall k :: k in tables ==> '\n' !in tables[k].name)
    && (forall k, j :: k in tables && 0 <= j < |tables[k].columns| ==>
          '\n' !in tables[k].columns[j].name && '\n' !in tables[k].columns[j].dataType)
    && (forall i :: 0 <= i < |fks| ==> '\n' !in fks[i].toTable && '\n' !in fks[i].fromTable)
    && (forall i, j :: 0 <= i < |fks| && 0 <= j < |fks[i].fromColumns| ==> '\n' !in fks[i].fromColumns[j])
  }

  lemma ColumnLineNoBreak(col: ColumnInfo)
    requires '\n' !in col.name && '\n' !in col.dataType
    ensures '\n' !in ColumnLine(col)
  {
    ColumnLineForm(col);
  }

  lemma {:induction false} EntityLinesNoBreaks(tables: map<string, TableInfo>, keys: seq<string>, fks: seq<ForeignKeyInfo>)
    requires forall k :: k in keys ==> k in tables
    requires NoLineBreaks(tables, fks)
    ensures forall i :: 0 <= i < |EntityLines(tables, keys)| ==> '\n' !in EntityLines(tables, keys)[i]
    decreases |keys|
  {
    if keys != [] {
      EntityLinesNoBreaks(tables, keys[..|keys| - 1], fks);
      var t := tables[keys[|keys| - 1]];
      forall j | 0 <= j < |t.columns| ensures '\n' !in ColumnLine(t.columns[j]) {
        ColumnLineNoBreak(t.columns[j]);
      }
    }
  }

  lemma RelationshipLineNoBreak(fk: ForeignKeyInfo)
    requires '\n' !in fk.toTable && '\n' !in fk.fromTable
    requires forall j :: 0 <= j < |fk.fromColumns| ==> '\n' !in fk.fromColumns[j]
    ensures '\n' !in RelationshipLine(fk)
  {
    JoinAvoids(fk.fromColumns, ", ", '\n');
  }

  /** Every line of the diagram is free of line breaks when the names are. */
  lemma DiagramLinesNoBreaks(tables: map<string, TableInfo>, fks: seq<ForeignKeyInfo>)
    requires NoLineBreaks(tables, fks)
    ensures forall i :: 0 <= i < |DiagramLines(tables, fks)| ==> '\n' !in DiagramLines(tables, fks)[i]
  {
    var relationships := RelationshipLines(fks);
    EntityLinesNoBreaks(tables, SortedKeys(tables.Keys), fks);
    forall i | 0 <= i < |relationships| ensures '\n' !in relationships[i] {
      RelationshipLineNoBreak(fks[i]);
    }
    LayoutNoBreaks(Entities(tables), relationships);
  }

  /** The frame lines hold no line break, so the layout holds none when its parts hold none. */
  lemma LayoutNoBreaks(entities: seq<string>, relationships: seq<string>)
    requires forall i :: 0 <= i < |entities| ==> '\n' !in entities[i]
    requires forall i :: 0 <= i < |relationships| ==> '\n' !in relationships[i]
    ensures forall i :: 0 <= i < |Layout(entities, relationships)| ==> '\n' !in Layout(entities, relationships)[i]
  {
    var lines := Layout(entities, relationships);
    LayoutPositions(entities, relationships);
    forall i | 0 <= i < |lines| ensures '\n' !in lines[i] {
      if 2 <= i < 2 + |entities| {
        assert lines[i] == entities[i - 2];
      } else if 3 + |entities| <= i < |lines| - 1 {
        assert lines[i] == relationships[i - 3 - |entities|];
      }
    }
  }

  /** Splitting the text at its line breaks gives back exactly the diagram's lines: no final line break. */
  lemma DiagramSplitLines(tables: map<string, TableInfo>, fks: seq<ForeignKeyInfo>)
    requires NoLineBreaks(tables, fks)
    ensures SplitLines(Diagram(tables, fks)) == DiagramLines(tables, fks)
  {
    DiagramLinesNoBreaks(tables, fks);
    SplitLinesJoin(DiagramLines(tables, fks));
  }
}
