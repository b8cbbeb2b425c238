/** Introspection of the SQLite catalog (db/sqlite.py): one row per column, with its foreign-key target. */
module SchemaRows {
  import opened Wrappers

  /** A row of `PRAGMA foreign_key_list`; the target column is null when the key names only a table. */
  datatype ForeignKey = ForeignKey(refTable: string, column: string, refColumn: Option<string>)

  datatype ColumnInfo = ColumnInfo(name: string, declType: string)

  datatype TableInfo = TableInfo(name: string, foreignKeys: seq<ForeignKey>, columns: seq<ColumnInfo>)

  datatype SchemaRow = SchemaRow(
    table: string, column: string, declType: string, isFk: bool, references: Option<string>)

  /** `f"{table}.{column}"`, where a null column prints as `None`. */
  function TargetOf(fk: ForeignKey): string {
    fk.refTable + "." + match fk.refColumn case Some(c) => c case None => "None"
  }

  /** The target of the last foreign key on a column, if there is one. */
  function ReferenceOf(fks: seq<ForeignKey>, column: string): Option<string> {
    if fks == [] then None
    else
      var last := fks[|fks| - 1];
      if last.column == column then Some(TargetOf(last)) else ReferenceOf(fks[..|fks| - 1], column)
  }

  /** `fks[k]` is the last foreign key on the column. */
  predicate IsLastKeyOn(fks: seq<ForeignKey>, column: string, k: nat) {
    k < |fks| && fks[k].column == column && forall l | k < l < |fks| :: fks[l].column != column
  }

  /** The table and column a key names, with a dot between; without a column, the word None. */
  predicate PointsTo(reference: Option<string>, fk: ForeignKey) {
    match fk.refColumn
    case Some(refColumn) => reference == Some(fk.refTable + "." + refColumn)
    case None => reference == Some(fk.refTable + ".None")
  }

  lemma {:induction false} LastKeyIsReference(fks: seq<ForeignKey>, column: string, k: nat)
    requires IsLastKeyOn(fks, column, k)
    ensures PointsTo(ReferenceOf(fks, column), fks[k])
  {
    if k < |fks| - 1 {
      LastKeyIsReference(fks[..|fks| - 1], column, k);
    } else if fks[k].refColumn.None? {
      assert fks[k].refTable + "." + "None" == fks[k].refTable + ".None";
    }
  }

  lemma {:induction false} ReferencedIffKeyed(fks: seq<ForeignKey>, column: string)
    ensures ReferenceOf(fks, column).Some? <==> exists k | 0 <= k < |fks| :: fks[k].column == column
  {
    if fks != [] {
      var init := fks[..|fks| - 1];
      ReferencedIffKeyed(init, column);
      assert forall k | 0 <= k < |init| :: init[k] == fks[k];
    }
  }

  /** A column has a reference iff some foreign key is on it, and then it points where the last such key does. */
  lemma ReferenceIsLastKey(fks: seq<ForeignKey>, column: string)
    ensures ReferenceOf(fks, column).Some? <==> exists k | 0 <= k < |fks| :: fks[k].column == column
    ensures forall k: nat | IsLastKeyOn(fks, column, k) :: PointsTo(ReferenceOf(fks, column), fks[k])
  {
    ReferencedIffKeyed(fks, column);
    forall k: nat | IsLastKeyOn(fks, column, k) ensures PointsTo(ReferenceOf(fks, column), fks[k]) {
      LastKeyIsReference(fks, column, k);
    }
  }

  function RowOf(t: TableInfo, c: ColumnInfo): SchemaRow {
    var reference := ReferenceOf(t.foreignKeys, c.name);
    SchemaRow(t.name, c.name, c.declType, reference.Some?, reference)
  }

  function TableRows(t: TableInfo): (rows: seq<SchemaRow>)
    ensures |rows| == |t.columns|
  {
    seq(|t.columns|, i requires 0 <= i < |t.columns| => RowOf(t, t.columns[i]))
  }

  function CatalogRows(catalog: seq<TableInfo>): seq<SchemaRow> {
    if catalog == [] then []
    else CatalogRows(catalog[..|catalog| - 1]) + TableRows(catalog[|catalog| - 1])
  }

  // ---- What a row says, read off the catalog ----

  /** The row is about this column of this table; it points where the last foreign key on the column does. */
  ghost predicate Describes(row: SchemaRow, t: TableInfo, c: ColumnInfo) {
    && row.table == t.name && row.column == c.name && row.declType == c.declType
    && (row.isFk <==> exists k | 0 <= k < |t.foreignKeys| :: t.foreignKeys[k].column == c.name)
    && (!row.isFk ==> row.references == None)
    && forall k: nat | IsLastKeyOn(t.foreignKeys, c.name, k) :: PointsTo(row.references, t.foreignKeys[k])
  }

  function ColumnCount(catalog: seq<TableInfo>): nat {
    if catalog == [] then 0 else ColumnCount(catalog[..|catalog| - 1]) + |catalog[|catalog| - 1].columns|
  }

  /** The n-th row is that of the j-th column of the i-th table. */
  predicate IsRowNumber(catalog: seq<TableInfo>, i: nat, j: nat, n: nat) {
    i < |catalog| && j < |catalog[i].columns| && n == ColumnCount(catalog[..i]) + j
  }

  /** One row for each column, tables in catalog order and columns in declaration order. */
  ghost predicate DescribesCatalog(rows: seq<SchemaRow>, catalog: seq<TableInfo>) {
    && |rows| == ColumnCount(catalog)
    && forall i: nat, j: nat, n: nat | IsRowNumber(catalog, i, j, n) ::
         n < |rows| && Describes(rows[n], catalog[i], catalog[i].columns[j])
  }

  lemma PrefixRowNumber(catalog: seq<TableInfo>, i: nat, j: nat, n: nat)
    requires catalog != []
    ensures var init := catalog[..|catalog| - 1];
            IsRowNumber(catalog, i, j, n)
            <==> if i == |init| then ColumnCount(init) <= n < ColumnCount(catalog) && j == n - ColumnCount(init)
                 else IsRowNumber(init, i, j, n)
  {
    var init := catalog[..|catalog| - 1];
    if i < |init| {
      assert init[..i] == catalog[..i] && init[i] == catalog[i];
    }
  }

  lemma {:induction false} RowNumbersAreInRange(catalog: seq<TableInfo>, i: nat, j: nat, n: nat)
    requires IsRowNumber(catalog, i, j, n)
    ensures n < ColumnCount(catalog)
  {
    PrefixRowNumber(catalog, i, j, n);
    if i < |catalog| - 1 {
      RowNumbersAreInRange(catalog[..|catalog| - 1], i, j, n);
    }
  }

  /** Every row is that of exactly one column. */
  lemma {:induction false} EveryRowHasItsColumn(catalog: seq<TableInfo>, n: nat) returns (i: nat, j: nat)
    requires n < ColumnCount(catalog)
    ensures forall i': nat, j': nat :: IsRowNumber(catalog, i', j', n) <==> i' == i && j' == j
  {
    var init := catalog[..|catalog| - 1];
    if n < ColumnCount(init) {
      i, j := EveryRowHasItsColumn(init, n);
      assert IsRowNumber(init, i, j, n);
    } else {
      i, j := |init|, n - ColumnCount(init);
    }
    forall i': nat, j': nat ensures IsRowNumber(catalog, i', j', n) <==> i' == i && j' == j {
      PrefixRowNumber(catalog, i', j', n);
      if IsRowNumber(init, i', j', n) {
        RowNumbersAreInRange(init, i', j', n);
      }
    }
  }

  lemma RowDescribes(t: TableInfo, c: ColumnInfo)
    ensures Describes(RowOf(t, c), t, c)
  {
    ReferenceIsLastKey(t.foreignKeys, c.name);
  }

  lemma {:induction false} RowsDescribeCatalog(catalog: seq<TableInfo>)
    ensures DescribesCatalog(CatalogRows(catalog), catalog)
  {
    if catalog != [] {
      var init, last := catalog[..|catalog| - 1], catalog[|catalog| - 1];
      var rows := CatalogRows(catalog);
      RowsDescribeCatalog(init);
      forall i: nat, j: nat, n: nat | IsRowNumber(catalog, i, j, n)
        ensures n < |rows| && Describes(rows[n], catalog[i], catalog[i].columns[j])
      {
        PrefixRowNumber(catalog, i, j, n);
        if i == |init| {
          assert rows[n] == TableRows(last)[j];
          RowDescribes(last, last.columns[j]);
        } else {
          assert rows[n] == CatalogRows(init)[n] && catalog[i] == init[i];
        }
      }
    }
  }

  // ---- The loops ----

  /** The map agrees with the foreign keys read so far. */
  ghost predicate MapsKeys(fkMap: map<string, string>, fks: seq<ForeignKey>) {
    forall c :: ReferenceOf(fks, c) == if c in fkMap then Some(fkMap[c]) else None
  }

  method BuildFkMap(fks: seq<ForeignKey>) returns (fkMap: map<string, string>)
    ensures MapsKeys(fkMap, fks)
  {
    fkMap := map[];
    for i := 0 to |fks|
      invariant MapsKeys(fkMap, fks[..i])
    {
      assert fks[..i + 1][..i] == fks[..i];
      fkMap := fkMap[fks[i].column := TargetOf(fks[i])];
    }
    assert fks[..|fks|] == fks;
  }

  /** All columns of all tables, tables in catalog order and columns in declaration order. */
  method FetchSchema(catalog: seq<TableInfo>) returns (result: seq<SchemaRow>)
    ensures result == CatalogRows(catalog)
    ensures DescribesCatalog(result, catalog)
  {
    result := [];
    for i := 0 to |catalog|
      invariant result == CatalogRows(catalog[..i])
    {
      var table := catalog[i];
      assert catalog[..i + 1][..i] == catalog[..i];
      var fkMap := BuildFkMap(table.foreignKeys);
      for j := 0 to |table.columns|
        invariant result == CatalogRows(catalog[..i]) + TableRows(table)[..j]
      {
        var name := table.columns[j].name;
        var references := if name in fkMap then Some(fkMap[name]) else None;
        assert references == ReferenceOf(table.foreignKeys, name);
        result := result + [SchemaRow(table.name, name, table.columns[j].declType, name in fkMap, references)];
        assert TableRows(table)[..j + 1] == TableRows(table)[..j] + [TableRows(table)[j]];
      }
      assert TableRows(table)[..|table.columns|] == TableRows(table);
    }
    assert catalog[..|catalog|] == catalog;
    RowsDescribeCatalog(catalog);
  }
}
