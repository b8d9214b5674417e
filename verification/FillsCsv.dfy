/**
 The fills as a file (lib/paper-trading.ts, `csvCell` and `fillsCsv`), against a reader of section 2 of
 RFC 4180: reading the file back gives the header and one record per fill, oldest first, each cell as
 it was shown.
 */
module FillsCsv {
  import opened Wrappers
  import opened StableSort
  import TextOrder

  /** Characters that make a cell need quotes. */
  predicate Special(c: char) {
    c == '"' || c == ',' || c == '\n' || c == '\r'
  }

  predicate Bare(text: string) {
    forall i :: 0 <= i < |text| ==> !Special(text[i])
  }

  /** A number or a boolean as JavaScript prints it. */
  type Printed = s: string | Bare(s) witness "0"

  datatype Cell = Absent | Value(printed: Printed) | Text(text: string)

  // ---- Writing ----

  /** A text that a spreadsheet would read as a formula is made plain text. */
  function Guard(text: string): string {
    if text != [] && text[0] in {'=', '+', '@', '\t', '\r'} then ['\''] + text else text
  }

  function DoubleQuotes(text: string): string {
    if text == [] then []
    else (if text[0] == '"' then ['"', '"'] else [text[0]]) + DoubleQuotes(text[1..])
  }

  function Quote(text: string): string {
    if Bare(text) then text else ['"'] + DoubleQuotes(text) + ['"']
  }

  function CsvCell(cell: Cell): string {
    match cell
    case Absent => []
    case Value(printed) => printed
    case Text(text) => Quote(Guard(text))
  }

  /** What a reader should find in a cell. */
  function Shown(cell: Cell): string {
    match cell
    case Absent => []
    case Value(printed) => printed
    case Text(text) => Guard(text)
  }

  function Join(parts: seq<string>, separator: string): string {
    if parts == [] then []
    else if |parts| == 1 then parts[0]
    else parts[0] + separator + Join(parts[1..], separator)
  }

  function Map<T, U>(f: T -> U, xs: seq<T>): (r: seq<U>)
    ensures |r| == |xs| && forall i :: 0 <= i < |xs| ==> r[i] == f(xs[i])
  {
    if xs == [] then [] else [f(xs[0])] + Map(f, xs[1..])
  }

  function CsvRow(row: seq<Cell>): string {
    Join(Map(CsvCell, row), ",")
  }

  function CsvFile(rows: seq<seq<Cell>>): string {
    Join(Map(CsvRow, rows), "\r\n") + "\r\n"
  }

  // ---- Reading, by section 2 of RFC 4180 ----

  datatype Field = Field(text: string, rest: string)

  function ReadBare(s: string): (f: Field)
    ensures |f.rest| <= |s|
  {
    if s == [] || Special(s[0]) then Field([], s)
    else
      var f := ReadBare(s[1..]);
      Field([s[0]] + f.text, f.rest)
  }

  /** What follows an opening quote: up to a quote that is not doubled. */
  function ReadQuoted(s: string): (f: Option<Field>)
    ensures f.Some? ==> |f.value.rest| < |s|
  {
    if s == [] then None
    else if s[0] != '"' then
      match ReadQuoted(s[1..])
      case None => None
      case Some(f) => Some(Field([s[0]] + f.text, f.rest))
    else if |s| > 1 && s[1] == '"' then
      match ReadQuoted(s[2..])
      case None => None
      case Some(f) => Some(Field(['"'] + f.text, f.rest))
    else Some(Field([], s[1..]))
  }

  function ReadField(s: string): (f: Option<Field>)
    ensures f.Some? ==> |f.value.rest| <= |s|
  {
    if s != [] && s[0] == '"' then ReadQuoted(s[1..]) else Some(ReadBare(s))
  }

  datatype Record = Record(cells: seq<string>, rest: string)

  /** One record and what follows its line break. The last line break may be missing. */
  function ReadRecord(s: string): (r: Option<Record>)
    ensures r.Some? && s != [] ==> |r.value.rest| < |s|
    ensures r.Some? ==> |r.value.rest| <= |s|
    decreases |s|
  {
    match ReadField(s)
    case None => None
    case Some(f) =>
      if f.rest == [] then Some(Record([f.text], []))
      else if f.rest[0] == ',' then
        match ReadRecord(f.rest[1..])
        case None => None
        case Some(r) => Some(Record([f.text] + r.cells, r.rest))
      else if "\r\n" <= f.rest then Some(Record([f.text], f.rest[2..]))
      else None
  }

  function ReadCsv(s: string): (records: Option<seq<seq<string>>>)
    decreases |s|
  {
    if s == [] then Some([])
    else
      match ReadRecord(s)
      case None => None
      case Some(r) =>
        match ReadCsv(r.rest)
        case None => None
        case Some(more) => Some([r.cells] + more)
  }

  // ---- The round trip ----

  /** What may follow a cell. */
  predicate EndsCell(s: string) {
    s != [] && (s[0] == ',' || s[0] == '\r')
  }

  lemma {:induction false} BareReadBack(text: string, tail: string)
    requires Bare(text) && EndsCell(tail)
    ensures ReadBare(text + tail) == Field(text, tail)
  {
    if text == [] {
      assert text + tail == tail;
    } else {
      assert (text + tail)[1..] == text[1..] + tail;
      BareReadBack(text[1..], tail);
    }
  }

  lemma {:induction false} QuotedReadBack(text: string, tail: string)
    requires EndsCell(tail)
    ensures ReadQuoted(DoubleQuotes(text) + ['"'] + tail) == Some(Field(text, tail))
  {
    var s := DoubleQuotes(text) + ['"'] + tail;
    if text == [] {
      assert s[1..] == tail;
    } else {
      QuotedReadBack(text[1..], tail);
      var more := DoubleQuotes(text[1..]) + ['"'] + tail;
      assert s == (if text[0] == '"' then ['"', '"'] else [text[0]]) + more;
      ReadOne(text[0], text[1..], more, tail);
      assert [text[0]] + text[1..] == text;
    }
  }

  lemma ReadOne(c: char, text: string, more: string, tail: string)
    requires ReadQuoted(more) == Some(Field(text, tail))
    ensures ReadQuoted((if c == '"' then ['"', '"'] else [c]) + more) == Some(Field([c] + text, tail))
  {
    var s := (if c == '"' then ['"', '"'] else [c]) + more;
    assert if c == '"' then s[2..] == more else s[1..] == more;
  }

  lemma BareFieldReadBack(text: string, tail: string)
    requires Bare(text) && EndsCell(tail)
    ensures ReadField(text + tail) == Some(Field(text, tail))
  {
    BareReadBack(text, tail);
    assert (text + tail)[0] == if text == [] then tail[0] else text[0];
  }

  lemma QuotedFieldReadBack(text: string, tail: string)
    requires EndsCell(tail)
    ensures ReadField(['"'] + DoubleQuotes(text) + ['"'] + tail) == Some(Field(text, tail))
  {
    var rest := DoubleQuotes(text) + ['"'] + tail;
    QuotedReadBack(text, tail);
    assert ['"'] + DoubleQuotes(text) + ['"'] + tail == ['"'] + rest;
    assert (['"'] + rest)[1..] == rest;
  }

  lemma QuoteReadBack(text: string, tail: string)
    requires EndsCell(tail)
    ensures ReadField(Quote(text) + tail) == Some(Field(text, tail))
  {
    if Bare(text) {
      BareFieldReadBack(text, tail);
    } else {
      QuotedFieldReadBack(text, tail);
    }
  }

  lemma CellReadBack(cell: Cell, tail: string)
    requires EndsCell(tail)
    ensures ReadField(CsvCell(cell) + tail) == Some(Field(Shown(cell), tail))
  {
    QuoteReadBack(Shown(cell), tail);
  }

  lemma {:induction false} RowReadBack(row: seq<Cell>, tail: string)
    requires row != []
    ensures ReadRecord(CsvRow(row) + "\r\n" + tail) == Some(Record(Map(Shown, row), tail))
  {
    var after := "\r\n" + tail;
    var cells := Map(CsvCell, row);
    if |row| == 1 {
      CellReadBack(row[0], after);
      assert CsvRow(row) + "\r\n" + tail == CsvCell(row[0]) + after;
      assert after[2..] == tail;
      assert Map(Shown, row) == [Shown(row[0])];
    } else {
      var rest := CsvRow(row[1..]) + "\r\n" + tail;
      assert cells[1..] == Map(CsvCell, row[1..]);
      assert CsvRow(row) + "\r\n" + tail == CsvCell(row[0]) + ("," + rest);
      CellReadBack(row[0], "," + rest);
      assert ("," + rest)[1..] == rest;
      RowReadBack(row[1..], tail);
      assert Map(Shown, row) == [Shown(row[0])] + Map(Shown, row[1..]);
    }
  }

  function ShownRows(rows: seq<seq<Cell>>): seq<seq<string>> {
    Map((row: seq<Cell>) => Map(Shown, row), rows)
  }

  /** A written file reads back as what its cells show. */
  lemma {:induction false} FileReadBack(rows: seq<seq<Cell>>)
    requires rows != [] && forall i :: 0 <= i < |rows| ==> rows[i] != []
    ensures ReadCsv(CsvFile(rows)) == Some(ShownRows(rows))
  {
    var lines := Map(CsvRow, rows);
    if |rows| == 1 {
      RowReadBack(rows[0], "");
      assert CsvFile(rows) == CsvRow(rows[0]) + "\r\n" + "";
      assert ShownRows(rows) == [Map(Shown, rows[0])];
    } else {
      var rest := CsvFile(rows[1..]);
      assert lines[1..] == Map(CsvRow, rows[1..]);
      assert CsvFile(rows) == CsvRow(rows[0]) + "\r\n" + rest;
      RowReadBack(rows[0], rest);
      FileReadBack(rows[1..]);
      assert ShownRows(rows) == [Map(Shown, rows[0])] + ShownRows(rows[1..]);
    }
  }

  /** The guard keeps a text apart from every other except the one that already carries its apostrophe. */
  lemma GuardLosesOnlyItsMark(one: string, other: string)
    ensures Guard(one) == Guard(other) <==>
      one == other || (Guard(one) != one && other == ['\''] + one) || (Guard(other) != other && one == ['\''] + other)
  {
    assert forall t: string :: (['\''] + t)[1..] == t;
  }

  // ---- The fills ----

  datatype Fill = Fill(
    createdAt: string, symbol: string, side: string, orderGroupId: string, legIndex: int,
    requestedQuantity: Printed, filledQuantity: Printed, avgFillPrice: Option<Printed>, fullyFilled: bool,
    realizedPnl: Printed, costsTotal: Printed, costs: Option<map<string, Printed>>, dataSource: string, administrative: bool)

  const COST_COLUMNS: seq<string> := ["brokerage", "stt", "exchange_txn_charges", "sebi_fee", "stamp_duty", "gst"]

  const FILL_COLUMNS: seq<string> :=
    ["created_at_utc", "time_india", "symbol", "side", "requested_quantity", "filled_quantity", "avg_fill_price", "fully_filled",
     "data_source", "gross_realized_pnl", "costs_total"]

  const LAST_COLUMNS: seq<string> := ["manual_close", "order_group_id", "leg_index"]

  const HEADER: seq<string> := FILL_COLUMNS + COST_COLUMNS + LAST_COLUMNS

  function PrintedBool(b: bool): Printed {
    if b then "true" else "false"
  }

  function PrintedNat(n: nat): (s: Printed)
    ensures s != []
  {
    var digit := ["0", "1", "2", "3", "4", "5", "6", "7", "8", "9"][n % 10];
    if n < 10 then digit else PrintedNat(n / 10) + digit
  }

  function PrintedInt(n: int): Printed {
    if n < 0 then "-" + PrintedNat(-n) else PrintedNat(n)
  }

  /** The order of the rows: by time, then by leg. */
  predicate NotAfter(a: Fill, b: Fill) {
    TextOrder.Before(a.createdAt, b.createdAt)
    || (!TextOrder.Before(b.createdAt, a.createdAt) && a.legIndex <= b.legIndex)
  }

  lemma NotAfterIsAnOrder()
    ensures TotalPreorder(NotAfter)
  {
    forall x, y
      ensures NotAfter(x, y) || NotAfter(y, x)
    {
      TextOrder.Ordered(x.createdAt, y.createdAt, x.createdAt);
    }
    forall x, y, z | NotAfter(x, y) && NotAfter(y, z)
      ensures NotAfter(x, z)
    {
      var a, b, c := x.createdAt, y.createdAt, z.createdAt;
      TextOrder.Ordered(a, b, c);
      TextOrder.Ordered(a, c, b);
      TextOrder.Ordered(b, c, a);
      TextOrder.Ordered(c, a, b);
      TextOrder.Ordered(c, b, a);
      TextOrder.Ordered(b, a, c);
    }
  }

  function CostCells(costs: Option<map<string, Printed>>, columns: seq<string>): (cells: seq<Cell>)
    ensures |cells| == |columns|
  {
    if columns == [] then []
    else
      var cell := if costs.Some? && columns[0] in costs.value then Value(costs.value[columns[0]]) else Value("0");
      [cell] + CostCells(costs, columns[1..])
  }

  /** A fill's row; `stamp` is the time as India's clock shows it. */
  function FillRow(fill: Fill, stamp: string -> string): (row: seq<Cell>)
    ensures |row| == |HEADER|
  {
    [Text(fill.createdAt), Text(stamp(fill.createdAt)), Text(fill.symbol), Text(fill.side),
     Value(fill.requestedQuantity), Value(fill.filledQuantity),
     if fill.avgFillPrice.Some? then Value(fill.avgFillPrice.value) else Absent,
     Value(PrintedBool(fill.fullyFilled)), Text(fill.dataSource), Value(fill.realizedPnl), Value(fill.costsTotal)]
    + CostCells(fill.costs, COST_COLUMNS)
    + [Value(PrintedBool(fill.administrative)), Text(fill.orderGroupId), Value(PrintedInt(fill.legIndex))]
  }

  function FileRows(fills: seq<Fill>, stamp: string -> string): (rows: seq<seq<Cell>>)
    ensures |rows| == |fills| + 1 && forall i :: 0 <= i < |rows| ==> |rows[i]| == |HEADER|
  {
    NotAfterIsAnOrder();
    SortLength(NotAfter, fills);
    [Map(name => Text(name), HEADER)] + Map(fill => FillRow(fill, stamp), Sort(NotAfter, fills))
  }

  function FillsCsv(fills: seq<Fill>, stamp: string -> string): string {
    CsvFile(FileRows(fills, stamp))
  }

  predicate PlainName(name: string) {
    name != [] && 'a' <= name[0] <= 'z'
  }

  lemma ColumnNames()
    ensures forall i :: 0 <= i < |FILL_COLUMNS| ==> PlainName(FILL_COLUMNS[i])
    ensures forall i :: 0 <= i < |COST_COLUMNS| ==> PlainName(COST_COLUMNS[i])
    ensures forall i :: 0 <= i < |LAST_COLUMNS| ==> PlainName(LAST_COLUMNS[i])
  {
  }

  /** No column name is guarded. */
  lemma {:induction false} HeaderShown(names: seq<string>)
    requires forall i :: 0 <= i < |names| ==> PlainName(names[i])
    ensures Map(Shown, Map(name => Text(name), names)) == names
  {
    var cells := Map(name => Text(name), names);
    forall i | 0 <= i < |names|
      ensures Map(Shown, cells)[i] == names[i]
    {
      assert cells[i] == Text(names[i]);
    }
  }

  lemma RowsShown(rows: seq<seq<Cell>>, i: nat)
    requires i < |rows|
    ensures |ShownRows(rows)| == |rows| && ShownRows(rows)[i] == Map(Shown, rows[i])
  {
  }

  lemma FirstRowShown(fills: seq<Fill>, stamp: string -> string)
    ensures |ShownRows(FileRows(fills, stamp))| == |fills| + 1 && ShownRows(FileRows(fills, stamp))[0] == HEADER
  {
    RowsShown(FileRows(fills, stamp), 0);
    ColumnNames();
    HeaderShown(HEADER);
  }

  lemma FileRowAt(fills: seq<Fill>, stamp: string -> string, i: nat)
    requires i < |fills|
    ensures |Sort(NotAfter, fills)| == |fills| && FileRows(fills, stamp)[i + 1] == FillRow(Sort(NotAfter, fills)[i], stamp)
  {
    NotAfterIsAnOrder();
    SortLength(NotAfter, fills);
  }

  lemma FillShown(fills: seq<Fill>, stamp: string -> string, i: nat)
    requires i < |fills|
    ensures |Sort(NotAfter, fills)| == |fills|
    ensures ShownRows(FileRows(fills, stamp))[i + 1] == Map(Shown, FillRow(Sort(NotAfter, fills)[i], stamp))
  {
    RowsShown(FileRows(fills, stamp), i + 1);
    FileRowAt(fills, stamp, i);
  }

  /** The file holds the header and then one record per fill, each cell as it was shown. */
  lemma FillsReadBack(fills: seq<Fill>, stamp: string -> string)
    ensures ReadCsv(FillsCsv(fills, stamp)).Some?
    ensures var records := ReadCsv(FillsCsv(fills, stamp)).value;
      && |records| == |fills| + 1 && records[0] == HEADER
      && forall i :: 0 <= i < |fills| ==>
           |Sort(NotAfter, fills)| == |fills| && records[i + 1] == Map(Shown, FillRow(Sort(NotAfter, fills)[i], stamp))
  {
    var rows := FileRows(fills, stamp);
    FileReadBack(rows);
    FirstRowShown(fills, stamp);
    forall i | 0 <= i < |fills|
      ensures |Sort(NotAfter, fills)| == |fills|
      ensures ShownRows(rows)[i + 1] == Map(Shown, FillRow(Sort(NotAfter, fills)[i], stamp))
    {
      FillShown(fills, stamp, i);
    }
  }

  /** The records are all the fills and only them, oldest first, the legs of one moment in leg order, and
      fills that agree in both in the order they came. */
  lemma FillsOldestFirst(fills: seq<Fill>)
    ensures var sorted := Sort(NotAfter, fills);
      && multiset(sorted) == multiset(fills)
      && (forall i, j :: 0 <= i < j < |sorted| ==> !TextOrder.Before(sorted[j].createdAt, sorted[i].createdAt))
      && (forall i, j :: 0 <= i < j < |sorted| && sorted[i].createdAt == sorted[j].createdAt ==> sorted[i].legIndex <= sorted[j].legIndex)
      && forall fill :: Ties(NotAfter, fill, sorted) == Ties(NotAfter, fill, fills)
  {
    NotAfterIsAnOrder();
    SortIsStable(NotAfter, fills);
    var sorted := Sort(NotAfter, fills);
    forall i, j | 0 <= i < j < |sorted|
      ensures !TextOrder.Before(sorted[j].createdAt, sorted[i].createdAt)
      ensures sorted[i].createdAt == sorted[j].createdAt ==> sorted[i].legIndex <= sorted[j].legIndex
    {
      assert NotAfter(sorted[i], sorted[j]);
      TextOrder.Ordered(sorted[i].createdAt, sorted[j].createdAt, sorted[i].createdAt);
    }
  }

  // ---- What a spreadsheet makes of a cell ----

  /** What a spreadsheet would take for the start of a formula. */
  predicate StartsFormula(text: string) {
    text != "" && (text[0] == '=' || text[0] == '+' || text[0] == '@' || text[0] == '\t' || text[0] == '\r')
  }

  /** A text is marked exactly when it would be taken for a formula, by an apostrophe before it, and what is shown never is one. */
  lemma GuardsExactlyFormulas(text: string)
    ensures !StartsFormula(Shown(Text(text)))
    ensures Shown(Text(text)) == if StartsFormula(text) then "'" + text else text
    ensures Shown(Absent) == "" && CsvCell(Absent) == ""
  {
  }

  /** A cell is quoted exactly when its text holds a comma, a quote or a line break; else it is written as it is. */
  lemma QuotedExactlyWhen(cell: Cell)
    ensures var shown, written := Shown(cell), CsvCell(cell);
      if exists i :: 0 <= i < |shown| && (shown[i] == ',' || shown[i] == '"' || shown[i] == '\n' || shown[i] == '\r')
      then |written| >= 2 && written[0] == '"' && written[|written| - 1] == '"'
      else written == shown
  {
    var shown := Shown(cell);
    if i :| 0 <= i < |shown| && (shown[i] == ',' || shown[i] == '"' || shown[i] == '\n' || shown[i] == '\r') {
      assert Special(shown[i]);
    }
  }

  /** The file ends with a line break. */
  lemma EndsWithLineBreak(fills: seq<Fill>, stamp: string -> string)
    ensures var file := FillsCsv(fills, stamp); |file| >= 2 && file[|file| - 2..] == "\r\n"
  {
  }

  // ---- What stands under which heading ----

  /** The column of this number has this heading, and the row this cell there. */
  predicate Column(row: seq<Cell>, i: nat, heading: string, cell: Cell) {
    |row| == |HEADER| && i < |HEADER| && HEADER[i] == heading && row[i] == cell
  }

  function CostCell(fill: Fill, line: string): Cell {
    if fill.costs.Some? && line in fill.costs.value then Value(fill.costs.value[line]) else Value("0")
  }

  lemma FirstColumns(fill: Fill, stamp: string -> string)
    ensures var row := FillRow(fill, stamp);
      && Column(row, 0, "created_at_utc", Text(fill.createdAt)) && Column(row, 1, "time_india", Text(stamp(fill.createdAt)))
      && Column(row, 2, "symbol", Text(fill.symbol)) && Column(row, 3, "side", Text(fill.side))
      && Column(row, 4, "requested_quantity", Value(fill.requestedQuantity))
      && Column(row, 5, "filled_quantity", Value(fill.filledQuantity))
      && Column(row, 6, "avg_fill_price", if fill.avgFillPrice.Some? then Value(fill.avgFillPrice.value) else Absent)
      && Column(row, 7, "fully_filled", Value(if fill.fullyFilled then "true" else "false"))
      && Column(row, 8, "data_source", Text(fill.dataSource))
      && Column(row, 9, "gross_realized_pnl", Value(fill.realizedPnl)) && Column(row, 10, "costs_total", Value(fill.costsTotal))
  {
  }

  lemma CostColumns(fill: Fill, stamp: string -> string)
    ensures var row := FillRow(fill, stamp);
      && Column(row, 11, "brokerage", CostCell(fill, "brokerage")) && Column(row, 12, "stt", CostCell(fill, "stt"))
      && Column(row, 13, "exchange_txn_charges", CostCell(fill, "exchange_txn_charges"))
      && Column(row, 14, "sebi_fee", CostCell(fill, "sebi_fee")) && Column(row, 15, "stamp_duty", CostCell(fill, "stamp_duty"))
      && Column(row, 16, "gst", CostCell(fill, "gst"))
  {
    var row, cells := FillRow(fill, stamp), CostCells(fill.costs, COST_COLUMNS);
    forall j | 0 <= j < 6
      ensures row[11 + j] == cells[j] && HEADER[11 + j] == COST_COLUMNS[j]
    {
    }
    forall j | 0 <= j < 6
      ensures cells[j] == CostCell(fill, COST_COLUMNS[j])
    {
      CostCellAt(fill, COST_COLUMNS, j);
    }
  }

  lemma {:induction false} CostCellAt(fill: Fill, columns: seq<string>, j: nat)
    requires j < |columns|
    ensures CostCells(fill.costs, columns)[j] == CostCell(fill, columns[j])
  {
    if j > 0 {
      CostCellAt(fill, columns[1..], j - 1);
    }
  }

  lemma LastColumns(fill: Fill, stamp: string -> string)
    ensures var row := FillRow(fill, stamp);
      && |HEADER| == 20
      && Column(row, 17, "manual_close", Value(if fill.administrative then "true" else "false"))
      && Column(row, 18, "order_group_id", Text(fill.orderGroupId)) && Column(row, 19, "leg_index", Value(PrintedInt(fill.legIndex)))
  {
  }

  /** A printed number read as decimal digits. */
  function NatOf(s: string): nat {
    if s == [] then 0
    else NatOf(s[..|s| - 1]) * 10 + (if '0' <= s[|s| - 1] <= '9' then s[|s| - 1] as int - '0' as int else 0)
  }

  lemma Digit(n: nat)
    requires n < 10
    ensures PrintedNat(n) == [('0' as int + n) as char]
  {
  }

  lemma PrintedTens(n: nat)
    requires n >= 10
    ensures PrintedNat(n) == PrintedNat(n / 10) + PrintedNat(n % 10)
  {
  }

  lemma {:induction false} NumberReadBack(n: nat)
    ensures NatOf(PrintedNat(n)) == n && (n >= 10 ==> PrintedNat(n)[0] != '0')
    ensures forall i :: 0 <= i < |PrintedNat(n)| ==> '0' <= PrintedNat(n)[i] <= '9'
  {
    Digit(n % 10);
    var last := PrintedNat(n % 10);
    if n >= 10 {
      PrintedTens(n);
      NumberReadBack(n / 10);
      assert (PrintedNat(n / 10) + last)[..|PrintedNat(n / 10)|] == PrintedNat(n / 10);
      if n / 10 < 10 {
        Digit(n / 10);
      }
    } else {
      assert last[..0] == [];
    }
  }

  function IntOf(s: string): int {
    if s != [] && s[0] == '-' then 0 - NatOf(s[1..]) else NatOf(s)
  }

  /** A printed whole number reads as itself, with its sign. */
  lemma WholeNumberReadBack(n: int)
    ensures IntOf(PrintedInt(n)) == n
  {
    NumberReadBack(if n < 0 then -n else n);
    assert n < 0 ==> PrintedInt(n)[1..] == PrintedNat(-n);
  }
}
