/**
 * The command-line entry point (main.py): the `--tables` argument becomes the
 * allow-list of `fetch_schema`, and an empty result ends the run with exit code 1
 * before a diagram is built. The database is the input `catalog`, and the file the
 * run writes is returned as text.
 */
module Cli {
  import opened Wrappers
  import opened Text
  import opened Schema
  import opened Mermaid

  /** The stripped pieces that are not empty, in order; repeated names stay. */
  function NonEmptyStripped(pieces: seq<string>): (names: seq<string>)
    ensures |names| <= |pieces|
    ensures forall i :: 0 <= i < |names| ==> names[i] != "" && Strip(names[i]) == names[i]
    decreases |pieces|
  {
    if pieces == [] then []
    else
      StripStrip(pieces[0]);
      (if Strip(pieces[0]) != "" then [Strip(pieces[0])] else []) + NonEmptyStripped(pieces[1..])
  }

  /** Every name is the stripped form of one of the pieces, and every piece that is not blank gives one. */
  lemma {:induction false} NonEmptyStrippedMembers(pieces: seq<string>)
    ensures forall n :: n in NonEmptyStripped(pieces) <==> n != "" && exists p :: p in pieces && Strip(p) == n
    decreases |pieces|
  {
    if pieces != [] {
      NonEmptyStrippedMembers(pieces[1..]);
      assert forall p :: p in pieces <==> p == pieces[0] || p in pieces[1..];
    }
  }

  /** One piece gives its stripped form, or nothing when it is blank. */
  lemma NonEmptyStrippedOne(p: string)
    ensures NonEmptyStripped([p]) == (if Strip(p) != "" then [Strip(p)] else [])
  {
    assert [p][1..] == [];
  }

  /** The names of two runs of pieces are the first run's names followed by the second's. */
  lemma {:induction false} NonEmptyStrippedAppend(a: seq<string>, b: seq<string>)
    ensures NonEmptyStripped(a + b) == NonEmptyStripped(a) + NonEmptyStripped(b)
    decreases |a|
  {
    if a == [] {
      assert a + b == b;
    } else {
      assert (a + b)[0] == a[0];
      assert (a + b)[1..] == a[1..] + b;
      NonEmptyStrippedAppend(a[1..], b);
    }
  }

  /** Pieces without a comma give names without a comma. */
  lemma NamesWithoutComma(pieces: seq<string>)
    requires forall i :: 0 <= i < |pieces| ==> ',' !in pieces[i]
    ensures forall i :: 0 <= i < |NonEmptyStripped(pieces)| ==> ',' !in NonEmptyStripped(pieces)[i]
  {
    var names := NonEmptyStripped(pieces);
    NonEmptyStrippedMembers(pieces);
    forall i | 0 <= i < |names| ensures ',' !in names[i] {
      assert names[i] in names;
      var p :| p in pieces && Strip(p) == names[i];
      StripWithin(p, ',');
    }
  }

  /**
   * main.py:53-57: no filter for an absent or empty argument; otherwise the
   * comma-separated pieces, stripped, with the empty ones left out.
   */
  function ParseTableFilter(tablesArg: Option<string>): (filter: Option<seq<string>>)
    ensures filter.None? <==> tablesArg.None? || tablesArg.value == ""
    ensures filter.Some? ==> forall i :: 0 <= i < |filter.value| ==>
      filter.value[i] != "" && Strip(filter.value[i]) == filter.value[i] && ',' !in filter.value[i]
  {
    if tablesArg.None? || tablesArg.value == "" then None
    else
      var pieces := Split(tablesArg.value, ',');
      NamesWithoutComma(pieces);
      Some(NonEmptyStripped(pieces))
  }

  /**
   * The piece before the first comma gives the first entry (when it is not blank),
   * and the rest of the argument gives the entries after it, in order.
   */
  lemma ParseFirstPiece(x: string, rest: string)
    requires ',' !in x
    ensures ParseTableFilter(Some(x + [','] + rest)) ==
      Some((if Strip(x) != "" then [Strip(x)] else []) + NonEmptyStripped(Split(rest, ',')))
  {
    assert (x + [','] + rest)[|x|] == ',';
    SplitFirstPiece(x, ',', rest);
    NonEmptyStrippedAppend([x], Split(rest, ','));
    NonEmptyStrippedOne(x);
  }

  /**
   * Any comma-free pieces joined with commas, padded or blank ones included, parse to
   * the stripped non-blank pieces in order; with `NonEmptyStrippedAppend` and
   * `NonEmptyStrippedOne` this fixes order and repeats, e.g. `" a , b , a"` gives
   * `["a", "b", "a"]`.
   */
  lemma ParsePieces(pieces: seq<string>)
    requires |pieces| > 0 && Join(pieces, ",") != ""
    requires forall i :: 0 <= i < |pieces| ==> ',' !in pieces[i]
    ensures ParseTableFilter(Some(Join(pieces, ","))) == Some(NonEmptyStripped(pieces))
  {
    SplitJoin(pieces, ',');
  }

  /** Names that are already stripped and not empty are kept as they are. */
  lemma {:induction false} NonEmptyStrippedKeeps(names: seq<string>)
    requires forall i :: 0 <= i < |names| ==> names[i] != "" && Strip(names[i]) == names[i]
    ensures NonEmptyStripped(names) == names
    decreases |names|
  {
    if names != [] {
      var head, rest := names[0], names[1..];
      assert forall i :: 0 <= i < |rest| ==> rest[i] != "" && Strip(rest[i]) == rest[i] by {
        forall i | 0 <= i < |rest| ensures rest[i] != "" && Strip(rest[i]) == rest[i] {
          assert rest[i] == names[i + 1];
        }
      }
      NonEmptyStrippedKeeps(rest);
      assert head != "" && Strip(head) == head;
      calc {
        NonEmptyStripped(names);
        (if Strip(head) != "" then [Strip(head)] else []) + NonEmptyStripped(rest);
        [head] + rest;
        names;
      }
    }
  }

  /**
   * Round trip: table names without commas or surrounding whitespace, joined with
   * commas, come back in the same order, repeated names included.
   */
  lemma ParseJoined(names: seq<string>)
    requires |names| > 0
    requires forall i :: 0 <= i < |names| ==> names[i] != "" && Strip(names[i]) == names[i] && ',' !in names[i]
    ensures ParseTableFilter(Some(Join(names, ","))) == Some(names)
  {
    JoinEnds(names, ",");
    assert Join(names, ",") != "";
    SplitJoin(names, ',');
    NonEmptyStrippedKeeps(names);
  }

  /** An argument of blank pieces gives an empty list, which `fetch_schema` reads as no filter. */
  lemma BlankPieces()
    ensures ParseTableFilter(Some(" , ")) == Some([])
    ensures !FilterActive(ParseTableFilter(Some(" , ")))
  {
    SplitWithout(" ", ',');
    SplitFirstPiece(" ", ',', " ");
    assert " , " == " " + [','] + " ";
    assert Strip(" ") == "";
  }

  /** The three result sets of the catalog queries. */
  datatype Catalog = Catalog(tableRows: seq<TableRow>, columnRows: seq<ColumnRow>, fkRows: seq<ForeignKeyRow>)

  /**
   * main.py:50-84: `catalog` is `None` when introspection raises. Exit code 1 and no
   * file when it does or when no table is found; otherwise exit code 0 and the file
   * holds the diagram and a final "\n".
   */
  method Run(tablesArg: Option<string>, catalog: Option<Catalog>) returns (exitCode: int, written: Option<string>)
    ensures catalog.None? ==> exitCode == 1 && written.None?
    ensures catalog.Some? ==>
      var (tables, fks) := Assemble(catalog.value.tableRows, catalog.value.columnRows, catalog.value.fkRows,
                                    ParseTableFilter(tablesArg));
      && (|tables| == 0 ==> exitCode == 1 && written.None?)
      && (|tables| > 0 ==> exitCode == 0 && written == Some(Diagram(tables, fks) + "\n"))
  {
    var tableFilter := ParseTableFilter(tablesArg);
    if catalog.None? {
      return 1, None;
    }
    var tables, foreignKeys := FetchSchema(catalog.value.tableRows, catalog.value.columnRows, catalog.value.fkRows,
                                           tableFilter);
    if |tables| == 0 {
      return 1, None;
    }
    var diagram := BuildDiagram(tables, foreignKeys);
    return 0, Some(diagram + "\n");
  }
}
