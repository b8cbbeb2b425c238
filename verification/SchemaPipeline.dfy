/** Introspection, grouping and printing together: the catalog, printed table by table. */
module SchemaPipeline {
  import opened Wrappers
  import opened SchemaRows
  import opened SchemaLoader
  import opened SchemaParser

  /** The columns as the catalog says: an arrow exactly where there is a foreign key, to the last one's target. */
  function DirectColumns(t: TableInfo): (columns: seq<Column>)
    ensures |columns| == |t.columns|
  {
    seq(|t.columns|, i requires 0 <= i < |t.columns| =>
      Column(t.columns[i].name, ReferenceOf(t.foreignKeys, t.columns[i].name)))
  }

  /** The tables in catalog order; one without columns leaves no line. */
  function DirectTables(catalog: seq<TableInfo>): seq<Table> {
    if catalog == [] then []
    else
      var last := catalog[|catalog| - 1];
      DirectTables(catalog[..|catalog| - 1])
      + if last.columns == [] then [] else [Table(last.name, DirectColumns(last))]
  }

  predicate HasDistinctTables(catalog: seq<TableInfo>) {
    forall i, j | 0 <= i < j < |catalog| :: catalog[i].name != catalog[j].name
  }

  lemma RowPrintsDirectly(t: TableInfo, c: ColumnInfo)
    ensures ColumnOf(RowOf(t, c)) == Column(c.name, ReferenceOf(t.foreignKeys, c.name))
  {
    ReferencesAreNotEmpty(t.foreignKeys, c.name);
  }

  lemma {:induction false} ReferencesAreNotEmpty(fks: seq<ForeignKey>, column: string)
    ensures ReferenceOf(fks, column) != Some("")
  {
    if fks != [] {
      assert '.' in TargetOf(fks[|fks| - 1]);
      ReferencesAreNotEmpty(fks[..|fks| - 1], column);
    }
  }

  /** The groups after the first n rows of a table that was not seen before. */
  ghost predicate GroupsFirst(rows: seq<SchemaRow>, t: TableInfo, n: nat)
    requires n <= |t.columns|
  {
    var longer := rows + TableRows(t)[..n];
    if n == 0 then Grouped(longer) == Grouped(rows) && NamesOf(longer) == NamesOf(rows)
    else
      && Grouped(longer) == Grouped(rows) + [Table(t.name, DirectColumns(t)[..n])]
      && NamesOf(longer) == NamesOf(rows) + [t.name]
  }

  lemma GroupsFirstRow(rows: seq<SchemaRow>, t: TableInfo)
    requires t.name !in NamesOf(rows) && t.columns != []
    ensures GroupsFirst(rows, t, 1)
  {
    var row := TableRows(t)[0];
    assert rows + TableRows(t)[..1] == rows + [row];
    RowPrintsDirectly(t, t.columns[0]);
    NamesAppend(rows, row);
    GroupedNew(rows, row);
    assert DirectColumns(t)[..1] == [ColumnOf(row)];
  }

  lemma GroupsNextRow(rows: seq<SchemaRow>, t: TableInfo, n: nat)
    requires 0 < n < |t.columns| && GroupsFirst(rows, t, n)
    ensures GroupsFirst(rows, t, n + 1)
  {
    var was, row := rows + TableRows(t)[..n], TableRows(t)[n];
    assert rows + TableRows(t)[..n + 1] == was + [row];
    RowPrintsDirectly(t, t.columns[n]);
    NamesAppend(was, row);
    GroupedKnown(was, row, |NamesOf(rows)|);
    assert DirectColumns(t)[..n + 1] == DirectColumns(t)[..n] + [ColumnOf(row)];
  }

  /** The rows of a table not seen before make one more group, from the first row on. */
  lemma {:induction false} GroupTableRows(rows: seq<SchemaRow>, t: TableInfo, n: nat)
    requires t.name !in NamesOf(rows) && n <= |t.columns|
    ensures GroupsFirst(rows, t, n)
    decreases n
  {
    if n == 0 {
      assert rows + TableRows(t)[..0] == rows;
    } else if n == 1 {
      GroupsFirstRow(rows, t);
    } else {
      GroupTableRows(rows, t, n - 1);
      GroupsNextRow(rows, t, n - 1);
    }
  }

  lemma {:induction false} CatalogNames(catalog: seq<TableInfo>, name: string)
    requires name in NamesOf(CatalogRows(catalog))
    ensures exists i | 0 <= i < |catalog| :: catalog[i].name == name
  {
    if catalog != [] {
      var rows := CatalogRows(catalog);
      TablesInOrderOfOccurrence(rows, 0);
      var i :| 0 <= i < |rows| && rows[i].table == name;
      CatalogRowTable(catalog, i);
    }
  }

  lemma {:induction false} CatalogRowTable(catalog: seq<TableInfo>, i: nat)
    requires i < |CatalogRows(catalog)|
    ensures exists j | 0 <= j < |catalog| :: catalog[j].name == CatalogRows(catalog)[i].table
  {
    var init, last := catalog[..|catalog| - 1], catalog[|catalog| - 1];
    if i < |CatalogRows(init)| {
      CatalogRowTable(init, i);
      var j :| 0 <= j < |init| && init[j].name == CatalogRows(init)[i].table;
      assert catalog[j] == init[j];
    } else {
      assert CatalogRows(catalog)[i] == TableRows(last)[i - |CatalogRows(init)|];
    }
  }

  /** For distinct table names, grouping the introspected rows is the same as reading the catalog table by table. */
  lemma {:induction false} GroupedCatalogIsDirect(catalog: seq<TableInfo>)
    requires HasDistinctTables(catalog)
    ensures Grouped(CatalogRows(catalog)) == DirectTables(catalog)
  {
    if catalog == [] {
      assert Grouped([]) == [];
    } else {
      var init, last := catalog[..|catalog| - 1], catalog[|catalog| - 1];
      GroupedCatalogIsDirect(init);
      if last.name in NamesOf(CatalogRows(init)) {
        CatalogNames(init, last.name);
        assert false;
      }
      GroupTableRows(CatalogRows(init), last, |last.columns|);
      assert TableRows(last)[..|last.columns|] == TableRows(last);
      assert DirectColumns(last)[..|last.columns|] == DirectColumns(last);
    }
  }

  /** A table without columns is not printed; any other is to be readable as printed. */
  predicate IsReadableTableInfo(t: TableInfo) {
    t.columns == [] || IsReadableTable(Table(t.name, DirectColumns(t)))
  }

  lemma {:induction false} ReadableIfEachTableIs(catalog: seq<TableInfo>)
    ensures IsReadable(DirectTables(catalog)) <==> forall i | 0 <= i < |catalog| :: IsReadableTableInfo(catalog[i])
  {
    if catalog != [] {
      var init, last := catalog[..|catalog| - 1], catalog[|catalog| - 1];
      ReadableIfEachTableIs(init);
      var ts, ts' := DirectTables(init), DirectTables(catalog);
      assert forall i | 0 <= i < |ts| :: ts'[i] == ts[i];
      assert last.columns != [] ==> ts'[|ts|] == Table(last.name, DirectColumns(last));
      assert forall i | 0 <= i < |init| :: catalog[i] == init[i];
    }
  }

  // ---- The text, read off the catalog ----

  /** The cell of a column: its name, and an arrow to where the last foreign key on it points. */
  ghost predicate IsCellFor(cell: string, t: TableInfo, c: ColumnInfo) {
    && ((forall k | 0 <= k < |t.foreignKeys| :: t.foreignKeys[k].column != c.name) ==> cell == c.name)
    && forall k: nat | IsLastKeyOn(t.foreignKeys, c.name, k) ::
         exists reference: string ::
           PointsTo(Some(reference), t.foreignKeys[k]) && cell == c.name + "\U{2192}" + reference
  }

  ghost predicate IsLineFor(line: string, t: TableInfo) {
    exists cells: seq<string> ::
      && |cells| == |t.columns|
      && line == t.name + ": " + Join(cells, ", ")
      && forall j | 0 <= j < |cells| :: IsCellFor(cells[j], t, t.columns[j])
  }

  /** How many tables have a line. */
  function LineCount(catalog: seq<TableInfo>): nat {
    if catalog == [] then 0
    else LineCount(catalog[..|catalog| - 1]) + if catalog[|catalog| - 1].columns == [] then 0 else 1
  }

  /** One line for each table with columns, in catalog order. */
  ghost predicate AreLinesFor(lines: seq<string>, catalog: seq<TableInfo>) {
    && |lines| == LineCount(catalog)
    && forall i | 0 <= i < |catalog| && catalog[i].columns != [] ::
         LineCount(catalog[..i]) < |lines| && IsLineFor(lines[LineCount(catalog[..i])], catalog[i])
  }

  lemma CellIsFor(t: TableInfo, c: ColumnInfo)
    ensures IsCellFor(PrintColumn(Column(c.name, ReferenceOf(t.foreignKeys, c.name))), t, c)
  {
    var reference := ReferenceOf(t.foreignKeys, c.name);
    ReferenceIsLastKey(t.foreignKeys, c.name);
    forall k: nat | IsLastKeyOn(t.foreignKeys, c.name, k)
      ensures reference.Some? && PointsTo(Some(reference.value), t.foreignKeys[k])
    {
    }
  }

  lemma LineIsFor(t: TableInfo)
    ensures IsLineFor(PrintTable(Table(t.name, DirectColumns(t))), t)
  {
    var cells := PrintColumns(DirectColumns(t));
    forall j | 0 <= j < |cells| ensures IsCellFor(cells[j], t, t.columns[j]) {
      CellIsFor(t, t.columns[j]);
    }
  }

  lemma PrintLinesAppend(ts: seq<Table>, t: Table)
    ensures PrintLines(ts + [t]) == PrintLines(ts) + [PrintTable(t)]
  {
  }

  lemma {:induction false} LinesAreFor(catalog: seq<TableInfo>)
    ensures AreLinesFor(PrintLines(DirectTables(catalog)), catalog)
  {
    if catalog != [] {
      var init, last := catalog[..|catalog| - 1], catalog[|catalog| - 1];
      LinesAreFor(init);
      LineIsFor(last);
      var was, lines := PrintLines(DirectTables(init)), PrintLines(DirectTables(catalog));
      PrintLinesAppend(DirectTables(init), Table(last.name, DirectColumns(last)));
      assert DirectTables(init) + [] == DirectTables(init);
      LinesExtend(was, init, last, lines);
      assert catalog == init + [last];
    }
  }

  lemma LinesExtend(was: seq<string>, init: seq<TableInfo>, last: TableInfo, lines: seq<string>)
    requires AreLinesFor(was, init)
    requires if last.columns == [] then lines == was
             else |lines| == |was| + 1 && was == lines[..|was|] && IsLineFor(lines[|was|], last)
    ensures AreLinesFor(lines, init + [last])
  {
    var catalog := init + [last];
    assert catalog[..|init|] == init;
    forall i | 0 <= i < |catalog| && catalog[i].columns != []
      ensures LineCount(catalog[..i]) < |lines| && IsLineFor(lines[LineCount(catalog[..i])], catalog[i])
    {
      if i < |init| {
        assert init[..i] == catalog[..i] && init[i] == catalog[i];
      }
    }
  }

  /** The schema text of a connector: the catalog can be read back out of it iff each of its tables is readable. */
  method BuildSchemaContext(catalog: seq<TableInfo>) returns (context: string)
    ensures context == PrintSchema(Grouped(CatalogRows(catalog)))
    ensures HasDistinctTables(catalog) ==> context == PrintSchema(DirectTables(catalog))
    ensures HasDistinctTables(catalog) ==> exists lines :: AreLinesFor(lines, catalog) && context == Join(lines, "\n")
    ensures HasDistinctTables(catalog) ==>
              (ParseSchema(context) == DirectTables(catalog)
               <==> forall i | 0 <= i < |catalog| :: IsReadableTableInfo(catalog[i]))
  {
    var rows := FetchSchema(catalog);
    context := LoadSchemaContext(rows);
    if HasDistinctTables(catalog) {
      GroupedCatalogIsDirect(catalog);
      LinesAreFor(catalog);
      ReadBackIffReadable(DirectTables(catalog));
      ReadableIfEachTableIs(catalog);
    }
  }

  lemma OneTableCatalog(t: TableInfo)
    requires t.columns != []
    ensures Grouped(CatalogRows([t])) == [Table(t.name, DirectColumns(t))]
    ensures PrintSchema([Table(t.name, DirectColumns(t))]) == PrintTable(Table(t.name, DirectColumns(t)))
  {
    GroupedCatalogIsDirect([t]);
    assert DirectTables([]) == [];
    assert [t][..0] == [];
  }

  lemma JoinedColumnPrintsAsTwo(table: string, b: string, c: string)
    ensures PrintTable(Table(table, [Column(b + ", " + c, None)]))
         == PrintTable(Table(table, [Column(b, None), Column(c, None)]))
  {
    var two := PrintColumns([Column(b, None), Column(c, None)]);
    assert two == [b, c] && two[1..] == [c];
    assert Join([c], ", ") == c && Join(two, ", ") == b + ", " + c;
    var one := PrintColumns([Column(b + ", " + c, None)]);
    assert one == [b + ", " + c] && Join(one, ", ") == b + ", " + c;
  }

  /** A table whose one column has a separator in its name gets the text of a table with two columns. */
  lemma SeparatorInColumnNameCollides(table: string, b: ColumnInfo, c: ColumnInfo)
    ensures var one := [TableInfo(table, [], [ColumnInfo(b.name + ", " + c.name, b.declType)])];
            var two := [TableInfo(table, [], [b, c])];
            && Grouped(CatalogRows(one)) != Grouped(CatalogRows(two))
            && PrintSchema(Grouped(CatalogRows(one))) == PrintSchema(Grouped(CatalogRows(two)))
  {
    var joined := ColumnInfo(b.name + ", " + c.name, b.declType);
    var one, two := TableInfo(table, [], [joined]), TableInfo(table, [], [b, c]);
    OneTableCatalog(one);
    OneTableCatalog(two);
    assert DirectColumns(one) == [Column(joined.name, None)];
    assert DirectColumns(two) == [Column(b.name, None), Column(c.name, None)];
    JoinedColumnPrintsAsTwo(table, b.name, c.name);
  }
}
