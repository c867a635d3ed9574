# ERD generator: schema assembly, Mermaid serialiser, fence reader and table filter

This project models the core of a tool that reads a SQL Server catalog and writes a
Mermaid `erDiagram` into a markdown file. The model has four parts.

- **Schema assembly** (`fetch_schema`, db/query.py): the rows of the three catalog
  queries (tables, columns, foreign keys) become a map from `"schema.table"` to a
  table record and a list of foreign keys. Tables pass an optional case-insensitive
  allow-list. Columns are attached in row order. Foreign-key rows with an endpoint
  outside the admitted tables are dropped while a filter is active. The rest are grouped
  by constraint name, and the `is_foreign_key` flag of the source columns is
  back-filled.
- **Diagram text** (`build_diagram` and its helpers, generator/mermaid.py): the
  header, one entity block per table in ascending key order, a blank line, one
  relationship line per foreign key, and the closing fence, joined by `"\n"`.
- **Reading the diagram back** (`_read_diagram`, src/routers/erd.py): the file text
  is stripped and split into lines, and the two fence lines are dropped. The round trip
  with the writer (`diagram + "\n"`) is proved.
- **Command line** (main.py): the `--tables` argument becomes the allow-list, and an
  empty table map ends the run with exit code 1 before anything is written.

Module layout:

- `wrappers.dfy`: `Option`.
- `text.dfy`: the `str` operations the code relies on.
  - `strip`, with Python's ASCII whitespace set;
  - ASCII `lower`;
  - `startswith`;
  - `split` on one character;
  - `join`;
  - `splitlines`, on `"\n"`;
  - the code-point order that `sorted` uses, with `SortedKeys` as `sorted(keys)`.
- `schema.dfy`: the data classes; the step functions of `fetch_schema` as
  reference definitions; and the loops as methods proved equal to them.
  `FetchSchema` ends equal to `Assemble`.
- `schema_facts.dfy`: what `Assemble` promises about tables, columns, flags and
  relationships.
- `mermaid.dfy`:
  - the line functions and `Diagram` as the reference;
  - `BuildDiagram`, whose loops append to `lines`;
  - the layout lemmas.
- `reader.dfy`: `ReadDiagram` and the round trip.
- `cli.dfy`: `ParseTableFilter` and `Run`.

The loops of `fetch_schema` and `build_diagram` are `method`s with `while` loops.
The dictionaries and lists they update are local `map`/`seq` variables. `fetch_schema`
mutates dataclass records in place (`columns.append`, `from_columns.append`,
`col.is_foreign_key = True`). The model replaces each such record by an updated copy.
Every record is reachable from exactly one place, so this loses no aliasing.

Where the code and its design description differ, the model follows the code:

- The flags are back-filled row by row inside the foreign-key loop (db/query.py:256-260),
  not after all rows. The result is the same, and `FlagsMatchRelationships` states it.
- `is_unique` is whatever the first row of a constraint carries (db/query.py:251). The
  catalog query computes it per row, as "a unique index holds this column and no column
  outside the key". The model takes it as an input bit, not as exact set equality.
- A relationship line starts with four spaces (generator/mermaid.py:80).

## Model

| member | source | states |
|---|---|---|
| Schema.AdmitTables | db/query.py:205-207 | a row is admitted iff no filter is active, or its lower-cased name is the lower-cased form of some filter entry; with `None` or `[]` every row is admitted and the order is unchanged |
| Schema.BuildTablesSpec | db/query.py:209-214 | the map has one key per distinct `schema.table` of the admitted rows; each maps to an empty table named after the last row with that key (later rows win) |
| SchemaFacts.AssembledTables | db/query.py:209-215 | the result's keys are exactly the qualified keys of the admitted rows; each table's name and schema come from the last such row, and its key is `schema + "." + name` |
| Schema.ColumnsForAppend | db/query.py:219-230 | the columns of a key over two row runs are the first run's columns followed by the second's (row order is kept) |
| Schema.AttachColumns | db/query.py:218-230 | after the loop, the key set is unchanged and each table's columns are its old columns followed by exactly the column rows carrying its key, in row order; other rows change nothing |
| Schema.AttachRow | db/query.py:220-230 | after one more row, each table is still its initial columns followed by exactly the new columns (flag false) of the rows so far carrying its key, and the key set is unchanged |
| SchemaFacts.AssembledColumns | db/query.py:218-260 | each table ends with as many columns as it has column rows, and they are in the same order with the same name, type, nullability and PK flag; `is_foreign_key` is true iff a used foreign-key row names that table and column |
| Schema.KeptRows | db/query.py:238-240 | a foreign-key row is kept iff no filter is active, or both its from-key and its to-key are admitted keys; with no filter every row is kept |
| Schema.KeptRowsStep | db/query.py:238-240 | the loop's kept prefix grows by the current row exactly when that row passes the filter test |
| SchemaFacts.AssembledKeptRows | db/query.py:215-240 | with no filter all foreign-key rows are used, even those pointing outside the tables; with a filter a row is used iff both endpoint keys are keys of the result map |
| SchemaFacts.FilteredEndpoints | db/query.py:238-240 | under an active filter every returned foreign key has both endpoint keys in the result map |
| SchemaFacts.OneRelationshipPerConstraint | db/query.py:241-254 | no two returned foreign keys share a constraint name, and a name occurs among them iff some used row carries it |
| SchemaFacts.RelationshipColumns | db/query.py:253-254 | each foreign key's from- and to-column lists have equal length, one entry per used row of that constraint, index-paired in row order |
| SchemaFacts.RelationshipColumnsNamed | db/query.py:241-254 | the relationship of a used name carries that name and pairs its two column lists index by index with that constraint's used rows |
| SchemaFacts.RelationshipEndpoints | db/query.py:242-252 | the first used row of a constraint fixes its from/to table, from/to schema and `is_unique` |
| Schema.RelationshipExtended | db/query.py:253-254 | a later row of a known constraint only appends its from- and to-column; every other field stays |
| Schema.RelationshipNew | db/query.py:242-254 | the first row of a constraint creates the entry from its own fields with one column in each list |
| Schema.RelationshipOther | db/query.py:241-254 | a row of one constraint leaves every other constraint's entry unchanged |
| SchemaFacts.RelationshipOrder | db/query.py:234-262 | the returned list is ordered by the first occurrence of each constraint name among the used rows |
| Schema.DistinctSpec | db/query.py:234-262 | the insertion order of `fk_map` lists each name once, ordered by first occurrence |
| Schema.GroupRow | db/query.py:241-254 | one row keeps the invariant: the map and its insertion order hold exactly the relationships of the rows used so far |
| Schema.GroupedValues | db/query.py:262 | `list(fk_map.values())` in insertion order is the list of relationships of the used rows |
| Schema.MarkColumns | db/query.py:258-260 | the columns keep their count and order; a column's flag becomes true iff it was true or its name is the given name; nothing else changes |
| Schema.BackFillRow | db/query.py:256-260 | one row flags the matching columns of its from-table if that table is present; the map keeps the invariant that each table's flags are back-filled from the rows used so far |
| Schema.CollectForeignKeys | db/query.py:233-262 | the loop returns the relationships of the used rows in first-occurrence order, and the tables with their flags back-filled from exactly those rows, keys unchanged |
| SchemaFacts.MarkedByRelationship | db/query.py:253-260 | when each constraint's rows share one source table, a column is named by a used row iff it is listed by a returned foreign key from that table |
| SchemaFacts.FlagsMatchRelationships | db/query.py:256-262 | when each constraint's rows share one source table, a column is flagged iff some returned foreign key starts at its table and lists it |
| Schema.FetchSchema | db/query.py:205-262 | the method's tables and foreign keys equal the reference assembly `Assemble` |
| Mermaid.ColumnLineForm | generator/mermaid.py:18-25 | the attribute line is 8 spaces, type, space, name, then ` PK` iff primary key, ` FK` iff foreign key and ` "nullable"` iff nullable, in that order |
| Mermaid.ColumnLineTokens | generator/mermaid.py:18-25 | when type and name hold no space, splitting the line after its indent on spaces gives back exactly the token list |
| Mermaid.RelationshipNotation | generator/mermaid.py:35-37 | the notation is the one-to-one token of line 36 iff the key is unique, and the one-to-many token of line 37 iff it is not |
| Mermaid.FkLabelColumns | generator/mermaid.py:40-42 | a one-column label is that column; each further column adds `", "` and its name at the end, in stored order |
| Mermaid.RelationshipLineForm | generator/mermaid.py:76-80 | the relationship line is four spaces, target table, notation, source table, ` : ` and the quoted label, with the notation chosen by `is_unique` |
| Mermaid.AppendBlock | generator/mermaid.py:67-71 | the loop over one table's columns appends exactly its block: the open line, one attribute line per column, the close line |
| Mermaid.AppendBlocks | generator/mermaid.py:66-71 | the loop over the keys appends the blocks of the tables in key-list order |
| Mermaid.AppendRelationships | generator/mermaid.py:77-80 | the loop over the foreign keys appends one relationship line per key in list order |
| Mermaid.BuildDiagram | generator/mermaid.py:45-83 | the text the method builds equals the reference `Diagram` |
| Mermaid.BlockShape | generator/mermaid.py:68-71 | a block is `    {name} {`, one attribute line per column in stored order, then `    }`; a table without columns gives just the two lines |
| Mermaid.BlockAt | generator/mermaid.py:66-71 | the `m`-th key's block sits between the blocks of the keys before it and the keys after it |
| Mermaid.EntitiesInKeyOrder | generator/mermaid.py:66 | any strictly ascending listing of the map's keys gives the same entity part: the output depends on the map's contents alone |
| Mermaid.DiagramFrame | generator/mermaid.py:63-83 | the lines number at least 4; the first two are the opening fence and `erDiagram`, and the last is the closing fence |
| Mermaid.DiagramSections | generator/mermaid.py:63-82 | after the header come the entity blocks in ascending key order, exactly one empty line, and then one relationship line per foreign key, in list order |
| Mermaid.DiagramLineCount | generator/mermaid.py:63-83 | the diagram has 4 lines, plus 2 more than the column count for each table, plus one per foreign key |
| Mermaid.DiagramSplitLines | generator/mermaid.py:83 | when no name holds a line break, splitting the text at `"\n"` gives back exactly the lines, so no line break is trailing |
| Mermaid.DiagramLinesNoBreaks | generator/mermaid.py:63-83 | when no table, column, type or foreign-key name holds a line break, no diagram line does |
| ErdReader.ReadDiagram | src/routers/erd.py:25-38 | a missing file gives `None` and an existing one gives a text |
| ErdReader.ReadStripped | src/routers/erd.py:33 | surrounding whitespace of the file text does not change what is read |
| ErdReader.OnlyFence | src/routers/erd.py:34-38 | a file whose only line is a fence reads as `""` |
| ErdReader.FenceLines | src/routers/erd.py:34-37 | a first line starting with a fence and a last line that is a fence are both dropped, and nothing else is |
| ErdReader.ReadFenced | src/routers/erd.py:33-38 | a fenced text followed by whitespace reads back as its interior lines, blank ones included, joined by `"\n"` |
| ErdReader.ReadBack | src/routers/erd.py:33-38 | the text `build_diagram` returns plus `"\n"`, as line 75 writes it, reads back as the diagram's lines 2..n-1 joined by `"\n"`, which starts with `erDiagram`, when no name holds a line break |
| Cli.ParseTableFilter | main.py:53-57 | no filter iff the argument is absent or empty; otherwise every entry is non-empty, has no surrounding whitespace and holds no comma |
| Cli.NonEmptyStrippedMembers | main.py:54 | a name is an entry iff it is non-empty and is the stripped form of some piece |
| Cli.NonEmptyStrippedOne | main.py:54 | one piece gives its stripped form, or no entry when it is blank |
| Cli.NonEmptyStrippedAppend | main.py:54 | the entries of two runs of pieces are the first run's entries followed by the second's, so input order and repeats are kept |
| Cli.ParsePieces | main.py:53-57 | any comma-free pieces joined by commas, padded or blank ones included, parse to exactly the stripped non-blank pieces in order |
| Cli.ParseFirstPiece | main.py:53-57 | the piece before the first comma gives the first entry when it is not blank, followed by the entries of the rest of the argument |
| Cli.ParseJoined | main.py:53-57 | names without commas or surrounding whitespace, joined by commas, parse back to the same list, in order and with duplicates |
| Cli.BlankPieces | main.py:54 | `" , "` gives `[]`, which the assembly treats as no filter |
| Cli.Run | main.py:53-82 | a failed schema fetch exits with 1; an empty table map exits with 1 and writes nothing; otherwise the run exits with 0 and writes the diagram followed by `"\n"` |
| Text.SortedKeys | generator/mermaid.py:66 | `sorted(keys)` lists each key exactly once, in strictly ascending code-point order |
| Text.SortedUnique | generator/mermaid.py:66 | two strictly ascending lists of the same keys are equal, so the sorted order is unique |
| Text.SplitJoin | main.py:54 | splitting a comma-join of comma-free parts gives the parts back |
| Text.SplitLinesJoin | src/routers/erd.py:33 | splitting lines joined by `"\n"` gives them back when the last is not empty |
| Text.StripSlice | src/routers/erd.py:33 | `strip` keeps a contiguous piece of its input with only whitespace before and after it |
| Text.StripAppendedSpace | src/routers/erd.py:33 | whitespace after a text that starts and ends with non-whitespace is stripped away, and nothing else is |

## Left out

- The database connection, the pyodbc cursor, `conn.close()` and the dotenv loading
  (db/query.py:14-17, 59-72, 197-199, 263-264). These are I/O through a foreign driver.
  The three result sets are inputs, and a failed fetch is the `None` catalog of `Cli.Run`.
- The catalog SQL (db/query.py:79-171). The database server runs it. The order
  it requests, and the `is_unique` bit of each row, are taken as properties of the input.
- The schema filter argument. It only parameterises the SQL, so the server applies it.
- The `__main__` debug printing of db/query.py:267-273, and the progress and error prints of main.py.
- In-place mutation of the dataclass records. Each update is modelled as a new value
  stored back into the map. No record is shared, so no aliasing behaviour is lost.
- Python's dict key order for the table map. It does not reach the output, because
  `build_diagram` sorts the keys.
- Text.Lower: only ASCII letters are lower-cased. Python's Unicode case mapping is not modelled.
- Text.IsSpace: whitespace is Python's ASCII `isspace` set. Unicode whitespace is not modelled.
- Text.SplitLines: only `"\n"` breaks lines. `str.splitlines` also breaks at `\r`,
  `\x0b`, `\x0c`, `\x1c`-`\x1e`, `\x85` and the Unicode separators.
- ErdReader.ReadBack: proved only when no table, column, type or foreign-key name
  contains `"\n"`. Otherwise the read-back lines differ from the written ones.
- Mermaid.DiagramSplitLines: the same no-line-break assumption as `ReadBack`.
- SchemaFacts.FlagsMatchRelationships: it needs every row of a constraint to name the
  same source table. A column named by a later row of a constraint that changes table
  is still flagged, but no returned relationship lists it under that table.
  `AssembledColumns` states the flags without this assumption.
- Mermaid.ColumnLineTokens: proved only for types and names without spaces.
- The file system in `_read_diagram` and main.py (`path.exists`, `read_text`,
  `os.makedirs`, `open`/`write`). The file is the `Option<string>` input of `ReadDiagram`,
  and the written text is the output of `Cli.Run`.
- argparse: `--tables` is an `Option<string>` input. `--schema` and `--output` only
  reach the SQL and the file path.
- The FastAPI application, its routes and templates, `run_in_executor` threading, the
  environment-driven settings, and the seeding script (src/main.py,
  src/routers/erd.py:41-76 except the write at line 75, src/dependencies.py,
  src/config.py, run_server.py, scripts/seed.py).
