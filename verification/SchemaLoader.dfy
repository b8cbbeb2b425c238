/**
 The schema text for the prompts (db/schema_loader.py): rows grouped by table in an insertion-ordered dictionary,
 then printed one line a table.
 */
module SchemaLoader {
  import opened Wrappers
  import opened SchemaRows

  /** A column as printed: its name and, for a foreign key, where it points. */
  datatype Column = Column(name: string, target: Option<string>)

  datatype Table = Table(name: string, columns: seq<Column>)

  const ARROW := "\U{2192}"

  /** The arrow is printed only for a foreign key whose reference is neither None nor empty. */
  function ColumnOf(row: SchemaRow): Column {
    Column(row.column, if row.isFk && OrElse(row.references, "") != "" then row.references else None)
  }

  function PrintColumn(c: Column): string {
    match c.target
    case None => c.name
    case Some(target) => c.name + ARROW + target
  }

  /** A row's cell is its column, with an arrow iff it is a foreign key whose reference is neither None nor empty. */
  lemma CellShowsReference(row: SchemaRow)
    ensures var cell := PrintColumn(ColumnOf(row));
            match row.references
            case Some(reference) =>
              cell == if row.isFk && reference != "" then row.column + "\U{2192}" + reference else row.column
            case None => cell == row.column
  {
  }

  function PrintColumns(cs: seq<Column>): (cells: seq<string>)
    ensures |cells| == |cs|
  {
    seq(|cs|, i requires 0 <= i < |cs| => PrintColumn(cs[i]))
  }

  /** `sep.join(parts)`. */
  function Join(parts: seq<string>, sep: string): string {
    if parts == [] then ""
    else if |parts| == 1 then parts[0]
    else parts[0] + sep + Join(parts[1..], sep)
  }

  function PrintTable(t: Table): string {
    t.name + ": " + Join(PrintColumns(t.columns), ", ")
  }

  function PrintLines(ts: seq<Table>): (lines: seq<string>)
    ensures |lines| == |ts|
  {
    seq(|ts|, i requires 0 <= i < |ts| => PrintTable(ts[i]))
  }

  function PrintSchema(ts: seq<Table>): string {
    Join(PrintLines(ts), "\n")
  }

  // ---- Grouping, said without a dictionary ----

  /** The tables in order of first occurrence. */
  function NamesOf(rows: seq<SchemaRow>): seq<string> {
    if rows == [] then []
    else
      var names, last := NamesOf(rows[..|rows| - 1]), rows[|rows| - 1].table;
      if last in names then names else names + [last]
  }

  /** The rows of one table, in order. */
  function ColumnsOf(rows: seq<SchemaRow>, table: string): seq<Column> {
    if rows == [] then []
    else
      var last := rows[|rows| - 1];
      ColumnsOf(rows[..|rows| - 1], table) + if last.table == table then [ColumnOf(last)] else []
  }

  function TablesOf(rows: seq<SchemaRow>, names: seq<string>): (ts: seq<Table>)
    ensures |ts| == |names|
  {
    seq(|names|, i requires 0 <= i < |names| => Table(names[i], ColumnsOf(rows, names[i])))
  }

  function Grouped(rows: seq<SchemaRow>): seq<Table> {
    TablesOf(rows, NamesOf(rows))
  }

  lemma NamesAppend(rows: seq<SchemaRow>, row: SchemaRow)
    ensures NamesOf(rows + [row])
         == if row.table in NamesOf(rows) then NamesOf(rows) else NamesOf(rows) + [row.table]
  {
    assert (rows + [row])[..|rows|] == rows;
  }

  lemma ColumnsAppend(rows: seq<SchemaRow>, row: SchemaRow, table: string)
    ensures ColumnsOf(rows + [row], table)
         == ColumnsOf(rows, table) + if row.table == table then [ColumnOf(row)] else []
  {
    assert (rows + [row])[..|rows|] == rows;
  }

  lemma OtherColumnsStay(rows: seq<SchemaRow>, row: SchemaRow)
    ensures forall t | t != row.table :: ColumnsOf(rows + [row], t) == ColumnsOf(rows, t)
  {
    forall t | t != row.table ensures ColumnsOf(rows + [row], t) == ColumnsOf(rows, t) {
      ColumnsAppend(rows, row, t);
    }
  }

  lemma {:induction false} NoRowsNoColumns(rows: seq<SchemaRow>, table: string)
    requires table !in NamesOf(rows)
    ensures ColumnsOf(rows, table) == []
  {
    if rows != [] {
      NoRowsNoColumns(rows[..|rows| - 1], table);
    }
  }

  /** The dictionary, as its keys in insertion order and their lists, holds the groups of the rows. */
  ghost predicate Collects(keys: seq<string>, tables: map<string, seq<string>>, rows: seq<SchemaRow>) {
    && keys == NamesOf(rows)
    && (forall t :: t in tables <==> t in keys)
    && (forall t | t in keys :: tables[t] == PrintColumns(ColumnsOf(rows, t)))
  }

  /** `if table not in tables: tables[table] = []` and `tables[table].append(col)`. */
  method AddCell(keys: seq<string>, tables: map<string, seq<string>>, ghost rows: seq<SchemaRow>, row: SchemaRow)
    returns (keys': seq<string>, tables': map<string, seq<string>>)
    requires Collects(keys, tables, rows)
    ensures Collects(keys', tables', rows + [row])
  {
    NamesAppend(rows, row);
    keys', tables' := keys, tables;
    var table := row.table;
    if table !in tables' {
      NoRowsNoColumns(rows, table);
      keys' := keys' + [table];
      tables' := tables'[table := []];
    }
    var col := row.column;
    if row.isFk && row.references.Some? && row.references.value != "" {
      col := row.column + ARROW + row.references.value;
    }
    tables' := tables'[table := tables'[table] + [col]];
    ColumnsAppend(rows, row, table);
    OtherColumnsStay(rows, row);
    assert tables'[table] == PrintColumns(ColumnsOf(rows + [row], table));
  }

  method LoadSchemaContext(rows: seq<SchemaRow>) returns (context: string)
    ensures context == PrintSchema(Grouped(rows))
  {
    var keys: seq<string> := [];
    var tables: map<string, seq<string>> := map[];
    for i := 0 to |rows|
      invariant Collects(keys, tables, rows[..i])
    {
      assert rows[..i + 1] == rows[..i] + [rows[i]];
      keys, tables := AddCell(keys, tables, rows[..i], rows[i]);
    }
    assert rows[..|rows|] == rows;
    var lines := seq(|keys|, i requires 0 <= i < |keys| => keys[i] + ": " + Join(tables[keys[i]], ", "));
    assert lines == PrintLines(Grouped(rows));
    context := Join(lines, "\n");
  }

  // ---- Grouping loses nothing ----

  predicate Distinct(names: seq<string>) {
    forall i, j | 0 <= i < j < |names| :: names[i] != names[j]
  }

  lemma {:induction false} NamesAreDistinct(rows: seq<SchemaRow>)
    ensures Distinct(NamesOf(rows))
  {
    if rows != [] {
      NamesAreDistinct(rows[..|rows| - 1]);
    }
  }

  /** A table's name and one of its columns. */
  type Cell = (string, Column)

  function CellOf(row: SchemaRow): Cell {
    (row.table, ColumnOf(row))
  }

  function CellsOf(rows: seq<SchemaRow>): (cells: seq<Cell>)
    ensures |cells| == |rows|
  {
    seq(|rows|, i requires 0 <= i < |rows| => CellOf(rows[i]))
  }

  function TableCells(t: Table): (cells: seq<Cell>)
    ensures |cells| == |t.columns|
  {
    seq(|t.columns|, i requires 0 <= i < |t.columns| => (t.name, t.columns[i]))
  }

  /** All cells of the tables, table after table. */
  function Flatten(ts: seq<Table>): seq<Cell> {
    if ts == [] then [] else Flatten(ts[..|ts| - 1]) + TableCells(ts[|ts| - 1])
  }

  /** A row of a new table adds a group at the end. */
  lemma GroupedNew(rows: seq<SchemaRow>, row: SchemaRow)
    requires row.table !in NamesOf(rows)
    ensures Grouped(rows + [row]) == Grouped(rows) + [Table(row.table, [ColumnOf(row)])]
  {
    NamesAppend(rows, row);
    NoRowsNoColumns(rows, row.table);
    ColumnsAppend(rows, row, row.table);
    OtherColumnsStay(rows, row);
    var names := NamesOf(rows);
    assert NamesOf(rows + [row]) == names + [row.table];
    assert ColumnsOf(rows + [row], row.table) == [ColumnOf(row)];
    assert forall k | 0 <= k < |names| :: names[k] in names;
  }

  /** A row of a known table adds a column at the end of its group. */
  lemma GroupedKnown(rows: seq<SchemaRow>, row: SchemaRow, i: nat)
    requires i < |NamesOf(rows)| && NamesOf(rows)[i] == row.table
    ensures Grouped(rows + [row])
         == Grouped(rows)[i := Table(row.table, Grouped(rows)[i].columns + [ColumnOf(row)])]
  {
    NamesAppend(rows, row);
    NamesAreDistinct(rows);
    ColumnsAppend(rows, row, row.table);
    OtherColumnsStay(rows, row);
    var names := NamesOf(rows);
    assert forall k | 0 <= k < |names| && k != i :: names[k] != row.table;
  }

  lemma TableCellsAppend(t: Table, c: Column)
    ensures TableCells(Table(t.name, t.columns + [c])) == TableCells(t) + [(t.name, c)]
  {
  }

  lemma {:induction false} FlattenUpdate(ts: seq<Table>, i: nat, c: Column)
    requires i < |ts|
    ensures multiset(Flatten(ts[i := Table(ts[i].name, ts[i].columns + [c])]))
         == multiset(Flatten(ts)) + multiset{(ts[i].name, c)}
    decreases |ts|
  {
    var n := |ts| - 1;
    var ts' := ts[i := Table(ts[i].name, ts[i].columns + [c])];
    if i == n {
      assert ts'[..n] == ts[..n];
      TableCellsAppend(ts[n], c);
    } else {
      assert ts'[..n] == ts[..n][i := ts'[i]];
      FlattenUpdate(ts[..n], i, c);
    }
  }

  lemma OneMoreRowOneMoreCell(rows: seq<SchemaRow>, row: SchemaRow)
    ensures multiset(Flatten(Grouped(rows + [row]))) == multiset(Flatten(Grouped(rows))) + multiset{CellOf(row)}
  {
    if row.table in NamesOf(rows) {
      var i :| 0 <= i < |NamesOf(rows)| && NamesOf(rows)[i] == row.table;
      GroupedKnown(rows, row, i);
      FlattenUpdate(Grouped(rows), i, ColumnOf(row));
    } else {
      GroupedNew(rows, row);
      FlattenAppend(Grouped(rows), Table(row.table, [ColumnOf(row)]));
      assert TableCells(Table(row.table, [ColumnOf(row)])) == [CellOf(row)];
    }
  }

  /** For rows in any order, the groups hold exactly the rows' cells: none lost, none added, none moved to a table. */
  lemma {:induction false} GroupingConserves(rows: seq<SchemaRow>)
    ensures multiset(Flatten(Grouped(rows))) == multiset(CellsOf(rows))
    ensures |Flatten(Grouped(rows))| == |rows|
  {
    if rows == [] {
      assert Grouped(rows) == [];
    } else {
      var was, row := rows[..|rows| - 1], rows[|rows| - 1];
      assert rows == was + [row];
      GroupingConserves(was);
      OneMoreRowOneMoreCell(was, row);
      assert CellsOf(rows) == CellsOf(was) + [CellOf(row)];
    }
    assert |multiset(Flatten(Grouped(rows)))| == |multiset(CellsOf(rows))|;
  }

  lemma FlattenAppend(ts: seq<Table>, t: Table)
    ensures Flatten(ts + [t]) == Flatten(ts) + TableCells(t)
  {
    assert (ts + [t])[..|ts|] == ts;
  }

  /** Tables stand in the order in which they first occur. */
  lemma {:induction false} TablesInOrderOfOccurrence(rows: seq<SchemaRow>, n: nat)
    requires n <= |rows|
    ensures NamesOf(rows[..n]) <= NamesOf(rows)
    ensures forall i | 0 <= i < |rows| :: rows[i].table in NamesOf(rows)
    ensures forall t | t in NamesOf(rows) :: exists i | 0 <= i < |rows| :: rows[i].table == t
    decreases |rows|
  {
    if rows != [] {
      var was := rows[..|rows| - 1];
      assert rows[|rows| - 1].table in NamesOf(rows);
      assert forall i | 0 <= i < |was| :: was[i] == rows[i];
      if n == |rows| {
        assert rows[..n] == rows;
        TablesInOrderOfOccurrence(was, |was|);
      } else {
        assert rows[..n] == was[..n];
        TablesInOrderOfOccurrence(was, n);
      }
    }
  }

  /** No table's rows are interrupted by those of another. */
  predicate IsContiguous(rows: seq<SchemaRow>) {
    forall i, j, k | 0 <= i < j < k < |rows| && rows[i].table == rows[k].table :: rows[j].table == rows[i].table
  }

  /** While the rows are contiguous, only the last group can still grow. */
  lemma {:induction false} LastNameIsLastTable(rows: seq<SchemaRow>)
    requires IsContiguous(rows) && rows != []
    ensures NamesOf(rows) != [] && NamesOf(rows)[|NamesOf(rows)| - 1] == rows[|rows| - 1].table
  {
    var was, row := rows[..|rows| - 1], rows[|rows| - 1];
    if was != [] && row.table in NamesOf(was) {
      LastNameIsLastTable(was);
      TablesInOrderOfOccurrence(was, 0);
      var i :| 0 <= i < |was| && was[i].table == row.table;
      assert rows[i].table == rows[|rows| - 1].table;
      assert i < |rows| - 2 ==> rows[|rows| - 2].table == rows[i].table;
    }
  }

  lemma FlattenGrowsLast(ts: seq<Table>, c: Column)
    requires ts != []
    ensures var i := |ts| - 1;
            Flatten(ts[i := Table(ts[i].name, ts[i].columns + [c])]) == Flatten(ts) + [(ts[i].name, c)]
  {
    var i := |ts| - 1;
    assert ts[i := Table(ts[i].name, ts[i].columns + [c])][..i] == ts[..i];
    TableCellsAppend(ts[i], c);
  }

  /** Contiguous rows come back in their own order. */
  lemma {:induction false} ContiguousRowsComeBack(rows: seq<SchemaRow>)
    requires IsContiguous(rows)
    ensures Flatten(Grouped(rows)) == CellsOf(rows)
  {
    if rows == [] {
      assert Grouped(rows) == [];
    } else {
      var was, row := rows[..|rows| - 1], rows[|rows| - 1];
      assert rows == was + [row];
      ContiguousRowsComeBack(was);
      assert CellsOf(rows) == CellsOf(was) + [CellOf(row)];
      if row.table in NamesOf(was) {
        LastNameIsLastTable(rows);
        NamesAppend(was, row);
        GroupedKnown(was, row, |NamesOf(was)| - 1);
        FlattenGrowsLast(Grouped(was), ColumnOf(row));
      } else {
        GroupedNew(was, row);
        FlattenAppend(Grouped(was), Table(row.table, [ColumnOf(row)]));
        assert TableCells(Table(row.table, [ColumnOf(row)])) == [CellOf(row)];
      }
    }
  }

  /** The cells of one table, in order. */
  function OfTable(cells: seq<Cell>, table: string): seq<Cell> {
    if cells == [] then []
    else
      var last := cells[|cells| - 1];
      OfTable(cells[..|cells| - 1], table) + if last.0 == table then [last] else []
  }

  lemma {:induction false} OfTableConcat(a: seq<Cell>, b: seq<Cell>, table: string)
    ensures OfTable(a + b, table) == OfTable(a, table) + OfTable(b, table)
  {
    if b == [] {
      assert a + b == a;
    } else {
      assert (a + b)[..|a + b| - 1] == a + b[..|b| - 1];
      OfTableConcat(a, b[..|b| - 1], table);
    }
  }

  lemma {:induction false} OfTableElsewhere(cells: seq<Cell>, table: string)
    requires forall i | 0 <= i < |cells| :: cells[i].0 != table
    ensures OfTable(cells, table) == []
  {
    if cells != [] {
      OfTableElsewhere(cells[..|cells| - 1], table);
    }
  }

  lemma {:induction false} OfTableAll(cells: seq<Cell>, table: string)
    requires forall i | 0 <= i < |cells| :: cells[i].0 == table
    ensures OfTable(cells, table) == cells
  {
    if cells != [] {
      OfTableAll(cells[..|cells| - 1], table);
    }
  }

  lemma OfTableLast(ts: seq<Table>, table: string)
    requires ts != []
    ensures OfTable(Flatten(ts), table)
         == OfTable(Flatten(ts[..|ts| - 1]), table)
            + (if ts[|ts| - 1].name == table then TableCells(ts[|ts| - 1]) else [])
  {
    var cells := TableCells(ts[|ts| - 1]);
    OfTableConcat(Flatten(ts[..|ts| - 1]), cells, table);
    if ts[|ts| - 1].name == table {
      OfTableAll(cells, table);
    } else {
      OfTableElsewhere(cells, table);
    }
  }

  lemma {:induction false} AbsentTableHasNoCells(ts: seq<Table>, table: string)
    requires forall k | 0 <= k < |ts| :: ts[k].name != table
    ensures OfTable(Flatten(ts), table) == []
  {
    if ts != [] {
      OfTableLast(ts, table);
      AbsentTableHasNoCells(ts[..|ts| - 1], table);
    }
  }

  lemma {:induction false} OnlyTableHoldsCells(ts: seq<Table>, i: nat)
    requires i < |ts| && forall k | 0 <= k < |ts| && k != i :: ts[k].name != ts[i].name
    ensures OfTable(Flatten(ts), ts[i].name) == TableCells(ts[i])
    decreases |ts|
  {
    OfTableLast(ts, ts[i].name);
    if i == |ts| - 1 {
      AbsentTableHasNoCells(ts[..i], ts[i].name);
    } else {
      OnlyTableHoldsCells(ts[..|ts| - 1], i);
    }
  }

  lemma {:induction false} RowsOfTable(rows: seq<SchemaRow>, table: string)
    ensures OfTable(CellsOf(rows), table) == TableCells(Table(table, ColumnsOf(rows, table)))
  {
    if rows != [] {
      RowsOfTable(rows[..|rows| - 1], table);
      assert CellsOf(rows)[..|rows| - 1] == CellsOf(rows[..|rows| - 1]);
    }
  }

  /** Within each table the columns keep the order of the rows, whatever order the tables' rows come in. */
  lemma GroupingIsStable(rows: seq<SchemaRow>, table: string)
    ensures OfTable(Flatten(Grouped(rows)), table) == OfTable(CellsOf(rows), table)
  {
    var names := NamesOf(rows);
    NamesAreDistinct(rows);
    RowsOfTable(rows, table);
    if table in names {
      var i :| 0 <= i < |names| && names[i] == table;
      OnlyTableHoldsCells(Grouped(rows), i);
    } else {
      NoRowsNoColumns(rows, table);
      assert forall k | 0 <= k < |names| :: names[k] in names;
      AbsentTableHasNoCells(Grouped(rows), table);
    }
  }
}
