/**
 A parser for the printed schema, and exactly which schemas it reads back: those in whose names no separator occurs
 where the parser would take it for one. The others it takes for schemas that are printed alike.
 */
module SchemaParser {
  import opened Wrappers
  import opened SchemaLoader

  // ---- Occurrences ----

  predicate OccursAt(s: string, i: nat, sep: string) {
    i + |sep| <= |s| && s[i..i + |sep|] == sep
  }

  predicate Contains(s: string, sep: string) {
    exists i: nat | i <= |s| :: OccursAt(s, i, sep)
  }

  /** A separator that cannot overlap itself: one character, or two different ones. */
  predicate IsSeparator(sep: string) {
    |sep| == 1 || (|sep| == 2 && sep[0] != sep[1])
  }

  /** The first occurrence of `sep` at or after i. */
  function Find(s: string, i: nat, sep: string): (k: Option<nat>)
    requires i <= |s|
    ensures k.Some? ==> i <= k.value && OccursAt(s, k.value, sep)
    ensures forall j: nat | i <= j && (k.Some? ==> j < k.value) :: !OccursAt(s, j, sep)
    decreases |s| - i
  {
    if OccursAt(s, i, sep) then Some(i)
    else if i < |s| then Find(s, i + 1, sep)
    else None
  }

  lemma FindIsFirst(s: string, k: nat, sep: string)
    requires OccursAt(s, k, sep) && forall j: nat | j < k :: !OccursAt(s, j, sep)
    ensures Find(s, 0, sep) == Some(k)
  {
  }

  lemma SliceOfSlice(s: string, i: nat, j: nat, k: nat, l: nat)
    requires i <= j <= |s| && k <= l <= j - i
    ensures s[i..j][k..l] == s[i + k..i + l]
  {
    var part, whole := s[i..j][k..l], s[i + k..i + l];
    assert |part| == |whole| && forall x | 0 <= x < |part| :: part[x] == whole[x];
  }

  lemma OccursInPart(s: string, i: nat, j: nat, k: nat, sep: string)
    requires i <= j <= |s|
    ensures OccursAt(s[i..j], k, sep) <==> i + k + |sep| <= j && OccursAt(s, i + k, sep)
  {
    if k + |sep| <= j - i {
      SliceOfSlice(s, i, j, k, k + |sep|);
    }
  }

  /** Two occurrences do not overlap. */
  lemma OccursBefore(s: string, j: nat, k: nat, sep: string)
    requires IsSeparator(sep) && j < k && OccursAt(s, k, sep)
    ensures OccursAt(s, j, sep) ==> j + |sep| <= k
  {
    assert s[k] == s[k..k + |sep|][0];
    assert OccursAt(s, j, sep) ==> s[j + |sep| - 1] == s[j..j + |sep|][|sep| - 1];
  }

  /** What precedes a separator does not make up an earlier one together with it. */
  lemma FirstSeparatorIsAtSeam(before: string, sep: string, after: string)
    requires IsSeparator(sep) && !Contains(before, sep)
    ensures Find(before + sep + after, 0, sep) == Some(|before|)
  {
    var s := before + sep + after;
    assert s[|before|..|before| + |sep|] == sep;
    assert s[0..|before|] == before;
    forall j: nat | j < |before| ensures !OccursAt(s, j, sep) {
      OccursBefore(s, j, |before|, sep);
      OccursInPart(s, 0, |before|, j, sep);
    }
    FindIsFirst(s, |before|, sep);
  }

  /** Characters foreign to the separator keep it from arising across them. */
  lemma NoSeparatorAcross(a: string, m: string, b: string, sep: string)
    requires IsSeparator(sep) && m != "" && forall k | 0 <= k < |sep| :: sep[k] !in m
    ensures Contains(a + m + b, sep) <==> Contains(a, sep) || Contains(b, sep)
  {
    var s, n := a + m + b, |a| + |m|;
    assert s[0..|a|] == a && s[n..|s|] == b;
    if Contains(a, sep) {
      var i: nat :| i <= |a| && OccursAt(a, i, sep);
      OccursInPart(s, 0, |a|, i, sep);
    }
    if Contains(b, sep) {
      var i: nat :| i <= |b| && OccursAt(b, i, sep);
      OccursInPart(s, n, |s|, i, sep);
    }
    if Contains(s, sep) {
      var i: nat :| i <= |s| && OccursAt(s, i, sep);
      OccurrenceAvoids(s, i, |a|, n, sep);
      OccursInPart(s, 0, |a|, i, sep);
      if n <= i {
        OccursInPart(s, n, |s|, i - n, sep);
      }
    }
  }

  lemma OccurrenceAvoids(s: string, i: nat, from: nat, to: nat, sep: string)
    requires IsSeparator(sep) && OccursAt(s, i, sep) && from < to <= |s|
    requires forall k, l | from <= k < to && 0 <= l < |sep| :: s[k] != sep[l]
    ensures i + |sep| <= from || to <= i
  {
    assert s[i] == s[i..i + |sep|][0] && s[i + |sep| - 1] == s[i..i + |sep|][|sep| - 1];
  }

  // ---- Splitting ----

  /** `s.split(sep)`. */
  function Split(s: string, sep: string): (parts: seq<string>)
    requires sep != ""
    ensures parts != []
    decreases |s|
  {
    match Find(s, 0, sep)
    case None => [s]
    case Some(k) => [s[..k]] + Split(s[k + |sep|..], sep)
  }

  /** `s.partition(sep)`: what stands before the first separator, and what follows it if there is one. */
  function Partition(s: string, sep: string): (string, Option<string>) {
    match Find(s, 0, sep)
    case None => (s, None)
    case Some(k) => (s[..k], Some(s[k + |sep|..]))
  }

  lemma PartitionParts(s: string, sep: string)
    requires sep != ""
    ensures Partition(s, sep).1.None? <==> !Contains(s, sep)
    ensures var (first, rest) := Partition(s, sep);
            !Contains(first, sep) && s == if rest.Some? then first + sep + rest.value else first
  {
    var k := Find(s, 0, sep);
    if k.Some? {
      assert s == s[..k.value] + s[k.value..k.value + |sep|] + s[k.value + |sep|..];
      forall j: nat ensures !OccursAt(s[0..k.value], j, sep) {
        OccursInPart(s, 0, k.value, j, sep);
      }
      assert s[..k.value] == s[0..k.value];
    }
  }

  lemma {:induction false} SplitParts(s: string, sep: string)
    requires sep != ""
    ensures Join(Split(s, sep), sep) == s
    ensures forall i | 0 <= i < |Split(s, sep)| :: !Contains(Split(s, sep)[i], sep)
    decreases |s|
  {
    PartitionParts(s, sep);
    var k := Find(s, 0, sep);
    if k.Some? {
      var rest := s[k.value + |sep|..];
      SplitParts(rest, sep);
      assert Split(s, sep)[1..] == Split(rest, sep);
    }
  }

  /** Parts that do not contain the separator survive joining and splitting. */
  lemma {:induction false} SplitUndoesJoin(parts: seq<string>, sep: string)
    requires IsSeparator(sep) && parts != []
    requires forall i | 0 <= i < |parts| :: !Contains(parts[i], sep)
    ensures Split(Join(parts, sep), sep) == parts
  {
    var first := parts[0];
    if |parts| > 1 {
      var rest := Join(parts[1..], sep);
      var s := first + sep + rest;
      FirstSeparatorIsAtSeam(first, sep, rest);
      assert s[..|first|] == first && s[|first| + |sep|..] == rest;
      SplitUndoesJoin(parts[1..], sep);
    }
  }

  lemma PartitionUndoes(first: string, sep: string, rest: string)
    requires IsSeparator(sep) && !Contains(first, sep)
    ensures Partition(first + sep + rest, sep) == (first, Some(rest))
    ensures Partition(first, sep) == (first, None)
  {
    FirstSeparatorIsAtSeam(first, sep, rest);
    var s := first + sep + rest;
    assert s[..|first|] == first && s[|first| + |sep|..] == rest;
  }

  // ---- The parser ----

  function ParseColumn(cell: string): Column {
    var (name, target) := Partition(cell, ARROW);
    Column(name, target)
  }

  function ParseColumns(cells: seq<string>): (columns: seq<Column>)
    ensures |columns| == |cells|
  {
    seq(|cells|, i requires 0 <= i < |cells| => ParseColumn(cells[i]))
  }

  function ParseTable(line: string): Table {
    var (name, body) := Partition(line, ": ");
    Table(name, ParseColumns(Split(if body.Some? then body.value else "", ", ")))
  }

  function ParseTables(lines: seq<string>): (ts: seq<Table>)
    ensures |ts| == |lines|
  {
    seq(|lines|, i requires 0 <= i < |lines| => ParseTable(lines[i]))
  }

  function ParseSchema(context: string): seq<Table> {
    if context == "" then [] else ParseTables(Split(context, "\n"))
  }

  // ---- Readable schemas ----

  /** The name ends at the first arrow, and the cell holds no column separator. */
  predicate IsReadableColumn(c: Column) {
    && !Contains(c.name, ARROW)
    && !Contains(c.name, ", ") && !Contains(c.name, "\n")
    && (c.target.Some? ==> !Contains(c.target.value, ", ") && !Contains(c.target.value, "\n"))
  }

  predicate IsReadableTable(t: Table) {
    && !Contains(t.name, ": ") && !Contains(t.name, "\n")
    && t.columns != []
    && forall i | 0 <= i < |t.columns| :: IsReadableColumn(t.columns[i])
  }

  predicate IsReadable(ts: seq<Table>) {
    forall i | 0 <= i < |ts| :: IsReadableTable(ts[i])
  }

  lemma PrintedColumnContains(c: Column, sep: string)
    requires sep == ", " || sep == "\n"
    ensures Contains(PrintColumn(c), sep)
       <==> Contains(c.name, sep) || (c.target.Some? && Contains(c.target.value, sep))
  {
    if c.target.Some? {
      NoSeparatorAcross(c.name, ARROW, c.target.value, sep);
    }
  }

  lemma ColumnRoundTrip(c: Column)
    ensures !Contains(c.name, ARROW) ==> ParseColumn(PrintColumn(c)) == c
  {
    if !Contains(c.name, ARROW) {
      PartitionUndoes(c.name, ARROW, if c.target.Some? then c.target.value else "");
    }
  }

  lemma {:induction false} JoinContainsNewline(parts: seq<string>)
    ensures Contains(Join(parts, ", "), "\n") <==> exists i | 0 <= i < |parts| :: Contains(parts[i], "\n")
  {
    if |parts| > 1 {
      JoinContainsNewline(parts[1..]);
      NoSeparatorAcross(parts[0], ", ", Join(parts[1..], ", "), "\n");
      assert forall i | 1 <= i < |parts| :: parts[i] == parts[1..][i - 1];
    }
  }

  /** A printed line has a newline iff one of its names has. */
  lemma LineContainsNewline(t: Table)
    ensures Contains(PrintTable(t), "\n")
       <==> Contains(t.name, "\n") || exists i | 0 <= i < |t.columns| :: Contains(PrintColumn(t.columns[i]), "\n")
  {
    var cells := PrintColumns(t.columns);
    NoSeparatorAcross(t.name, ": ", Join(cells, ", "), "\n");
    JoinContainsNewline(cells);
    assert forall i | 0 <= i < |cells| :: cells[i] == PrintColumn(t.columns[i]);
  }

  lemma TableRoundTrip(t: Table)
    requires IsReadableTable(t)
    ensures ParseTable(PrintTable(t)) == t && !Contains(PrintTable(t), "\n")
  {
    var cells := PrintColumns(t.columns);
    forall i | 0 <= i < |cells|
      ensures !Contains(cells[i], ", ") && !Contains(cells[i], "\n") && ParseColumn(cells[i]) == t.columns[i]
    {
      PrintedColumnContains(t.columns[i], ", ");
      PrintedColumnContains(t.columns[i], "\n");
      ColumnRoundTrip(t.columns[i]);
    }
    LineContainsNewline(t);
    PartitionUndoes(t.name, ": ", Join(cells, ", "));
    SplitUndoesJoin(cells, ", ");
    assert ParseColumns(cells) == t.columns;
  }

  lemma ReadableIsReadBack(ts: seq<Table>)
    requires IsReadable(ts)
    ensures ParseSchema(PrintSchema(ts)) == ts
  {
    if ts != [] {
      var lines := PrintLines(ts);
      forall i | 0 <= i < |ts| ensures ParseTable(lines[i]) == ts[i] && !Contains(lines[i], "\n") {
        TableRoundTrip(ts[i]);
      }
      SplitUndoesJoin(lines, "\n");
      PrintedIsNotEmpty(ts);
      assert ParseTables(lines) == ts;
    }
  }

  lemma PrintedIsNotEmpty(ts: seq<Table>)
    requires ts != []
    ensures PrintSchema(ts) != ""
  {
    var lines := PrintLines(ts);
    assert |lines[0]| >= 2;
  }

  // ---- Whatever the parser returns is readable ----

  lemma PartsInherit(a: string, m: string, b: string, sep: string)
    requires !Contains(a + m + b, sep)
    ensures !Contains(a, sep) && !Contains(b, sep)
  {
    var s, n := a + m + b, |a| + |m|;
    assert s[0..|a|] == a && s[n..|s|] == b;
    forall i: nat ensures !OccursAt(a, i, sep) && !OccursAt(b, i, sep) {
      OccursInPart(s, 0, |a|, i, sep);
      OccursInPart(s, n, |s|, i, sep);
    }
  }

  lemma ParsedColumnIsReadable(cell: string)
    requires !Contains(cell, ", ") && !Contains(cell, "\n")
    ensures IsReadableColumn(ParseColumn(cell)) && PrintColumn(ParseColumn(cell)) == cell
  {
    PartitionParts(cell, ARROW);
    var (name, target) := Partition(cell, ARROW);
    if target.Some? {
      PartsInherit(name, ARROW, target.value, ", ");
      PartsInherit(name, ARROW, target.value, "\n");
    }
  }

  lemma EmptyContainsNothing(sep: string)
    requires sep != ""
    ensures !Contains("", sep)
  {
  }

  /** A line reads as a readable table, which prints as that line again if the line has a name at all. */
  lemma ParsedTableIsReadable(line: string)
    requires !Contains(line, "\n")
    ensures IsReadableTable(ParseTable(line))
    ensures Contains(line, ": ") ==> PrintTable(ParseTable(line)) == line
  {
    PartitionParts(line, ": ");
    EmptyContainsNothing("\n");
    var (name, rest) := Partition(line, ": ");
    var body := if rest.Some? then rest.value else "";
    if rest.Some? {
      PartsInherit(name, ": ", body, "\n");
    }
    var cells := Split(body, ", ");
    SplitParts(body, ", ");
    JoinContainsNewline(cells);
    forall i | 0 <= i < |cells|
      ensures IsReadableColumn(ParseColumn(cells[i])) && PrintColumn(ParseColumn(cells[i])) == cells[i]
    {
      ParsedColumnIsReadable(cells[i]);
    }
    assert PrintColumns(ParseColumns(cells)) == cells;
  }

  lemma ParsedIsReadable(context: string)
    ensures IsReadable(ParseSchema(context))
  {
    if context != "" {
      SplitParts(context, "\n");
      forall i | 0 <= i < |Split(context, "\n")| ensures IsReadableTable(ParseTable(Split(context, "\n")[i])) {
        ParsedTableIsReadable(Split(context, "\n")[i]);
      }
    }
  }

  /** Parsing what was printed gives back the schema, table by table and column by column, iff it is readable. */
  lemma ReadBackIffReadable(ts: seq<Table>)
    ensures ParseSchema(PrintSchema(ts)) == ts <==> IsReadable(ts)
  {
    if IsReadable(ts) {
      ReadableIsReadBack(ts);
    }
    ParsedIsReadable(PrintSchema(ts));
  }

  /** Distinct readable schemas are never printed alike. */
  lemma PrintingIsInjective(ts: seq<Table>, ts': seq<Table>)
    requires IsReadable(ts) && IsReadable(ts') && PrintSchema(ts) == PrintSchema(ts')
    ensures ts == ts'
  {
    ReadableIsReadBack(ts);
    ReadableIsReadBack(ts');
  }

  // ---- What an unreadable schema is mistaken for ----

  /** Every line has a table name. */
  predicate IsNamedLineByLine(context: string) {
    context == "" || forall i | 0 <= i < |Split(context, "\n")| :: Contains(Split(context, "\n")[i], ": ")
  }

  lemma PrintedTableHasName(t: Table)
    ensures Contains(PrintTable(t), ": ")
  {
    var line := PrintTable(t);
    assert line[|t.name|..|t.name| + 2] == ": ";
    assert OccursAt(line, |t.name|, ": ");
  }

  lemma ReadableIsNamedLineByLine(ts: seq<Table>)
    requires IsReadable(ts)
    ensures IsNamedLineByLine(PrintSchema(ts))
  {
    if ts != [] {
      var lines := PrintLines(ts);
      forall i | 0 <= i < |ts| ensures !Contains(lines[i], "\n") && Contains(lines[i], ": ") {
        TableRoundTrip(ts[i]);
        PrintedTableHasName(ts[i]);
      }
      SplitUndoesJoin(lines, "\n");
    }
  }

  /** Printing what was read gives the text again iff each of its lines has a table name. */
  lemma PrintUndoesParseIff(context: string)
    ensures PrintSchema(ParseSchema(context)) == context <==> IsNamedLineByLine(context)
  {
    ParsedIsReadable(context);
    ReadableIsNamedLineByLine(ParseSchema(context));
    if context != "" && IsNamedLineByLine(context) {
      var lines := Split(context, "\n");
      SplitParts(context, "\n");
      forall i | 0 <= i < |lines| ensures PrintTable(ParseTable(lines[i])) == lines[i] {
        ParsedTableIsReadable(lines[i]);
      }
      assert PrintLines(ParseTables(lines)) == lines;
    }
  }

  /** A schema is printed like another, readable one iff it is not readable itself and every line has a table name. */
  lemma CollidesIffUnreadable(ts: seq<Table>)
    ensures (exists other :: other != ts && IsReadable(other) && PrintSchema(other) == PrintSchema(ts))
       <==> !IsReadable(ts) && IsNamedLineByLine(PrintSchema(ts))
  {
    var read := ParseSchema(PrintSchema(ts));
    PrintUndoesParseIff(PrintSchema(ts));
    ParsedIsReadable(PrintSchema(ts));
    forall other | other != ts && IsReadable(other) && PrintSchema(other) == PrintSchema(ts)
      ensures !IsReadable(ts) && IsNamedLineByLine(PrintSchema(ts))
    {
      ReadBackIffReadable(other);
      ReadBackIffReadable(ts);
      ReadableIsNamedLineByLine(other);
    }
    assert !IsReadable(ts) && PrintSchema(read) == PrintSchema(ts) ==> read != ts && IsReadable(read);
  }
}
