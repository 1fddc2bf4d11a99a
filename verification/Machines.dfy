/**
  Loading the table of known machines (load_machines in src/jutta_bt_proto/CoffeeMakerLoader.cpp):
  the line reader, the column parser and the number parser put together.
 */
module Machines {
  import opened Basics
  import opened CStrings
  import opened Lines
  import opened LineReading
  import opened ColumnText
  import opened ColumnParsing
  import opened Numbers

  datatype Machine = Machine(articleNumber: nat, name: string, fileName: string, version: nat)

  datatype LoadError = TooLong | Column(column: ColumnError) | NumberFormat(number: NumberError)

  const SEMICOLON := NoQuotes(';')
  const BLANKS := {' ', '\t'}
  const SIZE_T := IntType(0, 0xFFFF_FFFF_FFFF_FFFF)
  const UINT8 := IntType(0, 255)
  const COLUMN_ORDER: seq<int> := [0, 1, 2, 3]

  // ----- what the table means -----

  /** A C string ends at the first NUL. */
  function UpToNul(s: string): (r: string)
    ensures r <= s && NoNul(r) && (|r| < |s| ==> s[|r|] == '\0')
  {
    if s == "" || s[0] == '\0' then "" else [s[0]] + UpToNul(s[1..])
  }

  function NumberOf(s: string, t: IntType): Result<nat, LoadError> {
    match UnsignedMeaning(s, t)
    case Number(v) => Ok(v)
    case Bad => Err(NumberFormat(NoDigit))
    case _ => Err(NumberFormat(IntegerOverflow))
  }

  function MachineOf(cells: seq<string>): Result<Machine, LoadError>
    requires |cells| == 4
  {
    match NumberOf(cells[0], SIZE_T)
    case Err(e) => Err(e)
    case Ok(articleNumber) =>
      match NumberOf(cells[3], UINT8)
      case Err(e) => Err(e)
      case Ok(version) => Ok(Machine(articleNumber, cells[1], cells[2], version))
  }

  function RowOf(line: string): Result<Machine, LoadError> {
    var columns := Columns(SEMICOLON, Some(UpToNul(line)), 4);
    if columns.Err? then Err(Column(columns.error))
    else if |columns.value| == 4 then MachineOf(CleanAll(SEMICOLON, BLANKS, columns.value))
    else Err(Column(TooManyColumns))
  }

  /** The first machine with an article number stays. */
  function Emplace(machines: map<nat, Machine>, m: Machine): map<nat, Machine> {
    if m.articleNumber in machines then machines else machines[m.articleNumber := m]
  }

  function Rows(s: string, limit: nat, machines: map<nat, Machine>): Result<map<nat, Machine>, LoadError>
    decreases |s|
  {
    if s == "" then Ok(machines)
    else if LineLength(s) >= limit then Err(TooLong)
    else match RowOf(StripCR(FirstLine(s)))
      case Err(e) => Err(e)
      case Ok(m) => Rows(AfterLine(s), limit, Emplace(machines, m))
  }

  /** The table without its first line. */
  function Table(s: string, limit: nat): Result<map<nat, Machine>, LoadError> {
    if s == "" then Ok(map[])
    else if LineLength(s) >= limit then Err(TooLong)
    else Rows(AfterLine(s), limit, map[])
  }

  lemma {:induction false} ColumnsCount(q: Quoting, line: Option<string>, count: nat)
    ensures Columns(q, line, count).Ok? ==> |Columns(q, line, count).value| == count
    decreases count
  {
    hide ColumnEnd;
    if count > 0 && line.Some? && ColumnEnd(q, line.value, false).Some? {
      ColumnsCount(q, Following(line.value, ColumnEnd(q, line.value, false).value), count - 1);
    }
  }

  lemma LineAsCString(buffer: seq<char>, start: nat, line: string)
    requires StandsAt(buffer, start, line)
    ensures CString(buffer, start, UpToNul(line))
  {}

  // ----- loading -----

  method ReadNumber(s: string, t: IntType) returns (r: Result<nat, LoadError>)
    requires IntTypeOk(t)
    ensures r == NumberOf(s, t)
  {
    var x := ParseUnsignedInteger(s, t, ThrowOnOverflow);
    r := if x.Ok? then Ok(x.value) else Err(NumberFormat(x.error));
  }

  /** Reads the columns of a row into the fields of a machine. */
  method ReadMachine(buffer: array<char>, row: array<Option<nat>>, ghost cells: seq<string>, ghost limit: nat)
    returns (r: Result<Machine, LoadError>)
    requires row.Length == 4 && |cells| == 4
    requires Sorted(SEMICOLON, BLANKS, buffer[..], row[..], COLUMN_ORDER, cells, limit)
    ensures r == MachineOf(CleanAll(SEMICOLON, BLANKS, cells))
  {
    hide Clean, NumberOf;
    ghost var clean := CleanAll(SEMICOLON, BLANKS, cells);
    assert forall j :: 0 <= j < 4 ==> COLUMN_ORDER[j] == j && Holds(buffer[..], row[..][j], clean[j], limit);
    var text0 := ReadCString(buffer, row[0].value, clean[0]);
    var articleNumber := ReadNumber(text0, SIZE_T);
    if articleNumber.Err? {
      return Err(articleNumber.error);
    }
    var name := ReadCString(buffer, row[1].value, clean[1]);
    var fileName := ReadCString(buffer, row[2].value, clean[2]);
    var text3 := ReadCString(buffer, row[3].value, clean[3]);
    var version := ReadNumber(text3, UINT8);
    if version.Err? {
      return Err(version.error);
    }
    r := Ok(Machine(articleNumber.value, name, fileName, version.value));
  }

  method LoadMachines(source: string, block: nat) returns (r: Result<map<nat, Machine>, LoadError>)
    requires block >= 4
    ensures r == Table(Content(source), block)
  {
    hide LineLength, FirstLine, AfterLine, StripCR, RowOf, Content, UpToNul, Rows, Table;
    ghost var text := Content(source);
    var reader := new LineReader(source, block);
    var row := new Option<nat>[4](_ => None);
    // Skip the first line:
    TableStep(text, block);
    var first := reader.NextLine();
    if first.LineTooLong? {
      return Err(TooLong);
    }
    var machines: map<nat, Machine> := map[];
    while true
      invariant reader.Valid() && reader.blockLen == block
      invariant fresh(reader) && fresh(reader.buffer) && fresh(reader.reader) && fresh(row)
      invariant Table(text, block) == Rows(reader.rest, block, machines)
      decreases |reader.rest|
    {
      RowsStep(reader.rest, block, machines);
      var next := ReadNextRow(reader, row);
      match next
      case EndOfTable => return Ok(machines);
      case Failed(error) => return Err(error);
      case Row(machine) => machines := Emplace(machines, machine);
    }
  }

  datatype RowResult = EndOfTable | Failed(error: LoadError) | Row(machine: Machine)

  /** read_row: takes the next line apart and reads its four columns. */
  method ReadNextRow(reader: LineReader, row: array<Option<nat>>) returns (r: RowResult)
    requires reader.Valid() && row.Length == 4
    modifies reader`dataBegin, reader`dataEnd, reader`fileLine, reader`rest, reader.buffer, reader.reader, row
    ensures reader.Valid()
    ensures var s := old(reader.rest);
      if s == "" then r == EndOfTable
      else if LineLength(s) >= reader.blockLen then r == Failed(TooLong)
      else
        && reader.rest == AfterLine(s)
        && r == match RowOf(StripCR(FirstLine(s))) case Err(e) => Failed(e) case Ok(m) => Row(m)
  {
    hide LineLength, FirstLine, AfterLine, StripCR, RowOf;
    ghost var line := StripCR(FirstLine(reader.rest));
    var next := reader.NextLine();
    if next.NoMoreLines? {
      return EndOfTable;
    } else if next.LineTooLong? {
      return Failed(TooLong);
    }
    var machine := ReadRow(reader.buffer, next.start, row, line);
    r := if machine.Err? then Failed(machine.error) else Row(machine.value);
  }

  lemma TableStep(s: string, limit: nat)
    ensures s == "" ==> Table(s, limit) == Rows("", limit, map[])
    ensures s != "" && LineLength(s) >= limit ==> Table(s, limit) == Err(TooLong)
    ensures s != "" && LineLength(s) < limit ==> Table(s, limit) == Rows(AfterLine(s), limit, map[])
  {}

  lemma RowsStep(s: string, limit: nat, machines: map<nat, Machine>)
    ensures s == "" ==> Rows(s, limit, machines) == Ok(machines)
    ensures s != "" && LineLength(s) >= limit ==> Rows(s, limit, machines) == Err(TooLong)
    ensures s != "" && LineLength(s) < limit ==>
      && |AfterLine(s)| < |s|
      && var row := RowOf(StripCR(FirstLine(s)));
         Rows(s, limit, machines) == if row.Err? then Err(row.error) else Rows(AfterLine(s), limit, Emplace(machines, row.value))
  {}

  method ReadRow(buffer: array<char>, start: nat, row: array<Option<nat>>, ghost line: string)
    returns (r: Result<Machine, LoadError>)
    requires row.Length == 4 && StandsAt(buffer[..], start, line)
    modifies buffer, row
    ensures r == RowOf(line)
    ensures forall i :: 0 <= i < buffer.Length && !(start <= i <= start + |line|) ==> buffer[i] == old(buffer[i])
  {
    hide Columns, Clean, MachineOf, CleanAll;
    ghost var text := UpToNul(line);
    LineAsCString(buffer[..], start, line);
    ColumnsCount(SEMICOLON, Some(text), 4);
    var error := ParseLine(SEMICOLON, BLANKS, buffer, start, row, COLUMN_ORDER, text);
    if error.Some? {
      return Err(Column(error.value));
    }
    r := ReadMachine(buffer, row, Columns(SEMICOLON, Some(text), 4).value, start + |text| + 1);
  }

  // ----- writing a table and loading it -----

  function PrintMachine(m: Machine): string {
    Join(';', [ToDecimal(m.articleNumber), m.name, m.fileName, ToDecimal(m.version)])
  }

  function PrintMachines(machines: seq<Machine>, lineEnd: string): string {
    if machines == [] then "" else PrintMachine(machines[0]) + (lineEnd + PrintMachines(machines[1..], lineEnd))
  }

  /** A text that can stand in a column as it is. */
  predicate Plain(s: string) {
    (forall i :: 0 <= i < |s| ==> s[i] != ';' && s[i] != '\n' && s[i] != '\0') && Trimmed(BLANKS, s) == s
  }

  predicate Printable(m: Machine, lineEnd: string, limit: nat) {
    && m.articleNumber <= SIZE_T.max && m.version <= UINT8.max
    && Plain(m.name) && Plain(m.fileName) && |PrintMachine(m)| + |lineEnd| <= limit
  }

  /** For every article number the first machine that has it. */
  function FirstOfEach(machines: seq<Machine>): map<nat, Machine> {
    if machines == [] then map[] else FirstOfEach(machines[1..])[machines[0].articleNumber := machines[0]]
  }

  lemma NumberColumn(n: nat, t: IntType)
    requires n <= t.max
    ensures var s := ToDecimal(n);
      s != "" && AllDigits(s) && Plain(s) && NumberOf(s, t) == Ok(n)
  {
    DecimalRoundTrip(n);
    var s := ToDecimal(n);
    hide ToDecimal, Decimal, UnsignedMeaning;
    DigitsMeaning(s, t);
    assert IsDigit(s[0]) && IsDigit(s[|s| - 1]);
  }

  /** What a number column gives, with the limits of the two number columns spelled out. */
  lemma NumberMeaning(digits: string, junk: string)
    requires AllDigits(digits) && (junk == "" || !IsDigit(junk[0]))
    ensures NumberOf(digits + junk, SIZE_T) ==
      if Decimal(digits) > 18446744073709551615 then Err(NumberFormat(IntegerOverflow))
      else if junk == "" then Ok(Decimal(digits)) else Err(NumberFormat(NoDigit))
    ensures NumberOf(digits + junk, UINT8) ==
      if Decimal(digits) > 255 then Err(NumberFormat(IntegerOverflow))
      else if junk == "" then Ok(Decimal(digits)) else Err(NumberFormat(NoDigit))
  {
    hide Decimal, UnsignedMeaning, AllDigits;
    if junk == "" {
      assert digits + junk == digits;
      DigitsMeaning(digits, SIZE_T);
      DigitsMeaning(digits, UINT8);
    } else {
      TextMeaning(digits, junk, SIZE_T);
      TextMeaning(digits, junk, UINT8);
    }
  }

  /** A cell of a row, with blanks around its text. */
  datatype Cell = Cell(left: string, text: string, right: string)

  predicate OnlyBlanks(s: string) {
    forall i :: 0 <= i < |s| ==> s[i] == ' ' || s[i] == '\t'
  }

  predicate CellOk(c: Cell) {
    && OnlyBlanks(c.left) && OnlyBlanks(c.right)
    && (c.text == "" || (!OnlyBlanks([c.text[0]]) && !OnlyBlanks([c.text[|c.text| - 1]])))
    && forall i :: 0 <= i < |c.text| ==> c.text[i] != ';' && c.text[i] != '\0'
  }

  function CellText(c: Cell): string {
    c.left + (c.text + c.right)
  }

  lemma CellRead(c: Cell)
    requires CellOk(c)
    ensures Clean(SEMICOLON, BLANKS, CellText(c)) == c.text
    ensures Closed(SEMICOLON, CellText(c)) && NoNul(CellText(c))
  {
    var s := CellText(c);
    assert c.text != "" ==> OnlyBlanks([c.text[0]]) == (c.text[0] in BLANKS) && OnlyBlanks([c.text[|c.text| - 1]]) == (c.text[|c.text| - 1] in BLANKS);
    TrimmedIs(BLANKS, c.left, c.text, c.right);
    forall i | 0 <= i < |s|
      ensures s[i] != ';' && s[i] != '\0'
    {
      assert i < |c.left| ==> s[i] == c.left[i];
    }
    PlainIsClosed(SEMICOLON, s);
  }

  lemma CellsRead(a: Cell, b: Cell, c: Cell, d: Cell)
    requires CellOk(a) && CellOk(b) && CellOk(c) && CellOk(d)
    ensures var line := CellText(a) + ";" + CellText(b) + ";" + CellText(c) + ";" + CellText(d);
      RowOf(line) == MachineOf([a.text, b.text, c.text, d.text])
  {
    CellRead(a);
    CellRead(b);
    CellRead(c);
    CellRead(d);
    hide CellText, CellOk, Clean, Closed, RowOf, Join;
    var cells, texts := [CellText(a), CellText(b), CellText(c), CellText(d)], [a.text, b.text, c.text, d.text];
    FourJoined(cells[0], cells[1], cells[2], cells[3]);
    RowOfCells(cells, texts, CellText(a) + ";" + CellText(b) + ";" + CellText(c) + ";" + CellText(d));
  }

  lemma RowOfCells(cells: seq<string>, texts: seq<string>, line: string)
    requires |cells| == |texts| == 4 && line == Join(';', cells) && NoNul(line)
    requires forall k :: 0 <= k < 4 ==> Closed(SEMICOLON, cells[k]) && Clean(SEMICOLON, BLANKS, cells[k]) == texts[k]
    ensures RowOf(line) == MachineOf(texts)
  {
    hide Clean, Closed, MachineOf, Join, Cells, Columns, UpToNul;
    CutJoined(SEMICOLON, cells);
    ColumnsMeaning(SEMICOLON, line, 4);
    WithoutNul(line);
    assert CleanAll(SEMICOLON, BLANKS, cells) == texts;
  }

  lemma WithoutNul(s: string)
    requires NoNul(s)
    ensures UpToNul(s) == s
  {}

  /**
    A row of four cells, with blanks around them or not, is a machine if its numbers are digits that
    fit 64 and 8 bits. The first number is looked at first.
   */
  lemma RowMeaning(a: Cell, b: Cell, c: Cell, d: Cell)
    requires CellOk(a) && CellOk(b) && CellOk(c) && CellOk(d) && AllDigits(a.text) && AllDigits(d.text)
    ensures var line := CellText(a) + ";" + CellText(b) + ";" + CellText(c) + ";" + CellText(d);
      RowOf(line) ==
        if Decimal(a.text) > 18446744073709551615 || Decimal(d.text) > 255 then Err(NumberFormat(IntegerOverflow))
        else Ok(Machine(Decimal(a.text), b.text, c.text, Decimal(d.text)))
  {
    hide CellText, CellOk, NumberOf, AllDigits, Decimal;
    CellsRead(a, b, c, d);
    hide RowOf;
    NumberMeaning(a.text, "");
    NumberMeaning(d.text, "");
    assert a.text + "" == a.text && d.text + "" == d.text;
  }

  /** A row with more or fewer cells than four is refused. */
  lemma WrongColumns(cells: seq<string>)
    requires cells != [] && |cells| != 4
    requires forall k :: 0 <= k < |cells| ==> ';' !in cells[k]
    requires NoNul(Join(';', cells))
    ensures RowOf(Join(';', cells)) == Err(Column(if |cells| < 4 then TooFewColumns else TooManyColumns))
  {
    forall k | 0 <= k < |cells|
      ensures Closed(SEMICOLON, cells[k])
    {
      PlainIsClosed(SEMICOLON, cells[k]);
    }
    hide Closed, Join, Cells, Columns, UpToNul;
    CutJoined(SEMICOLON, cells);
    ColumnsMeaning(SEMICOLON, Join(';', cells), 4);
    WithoutNul(Join(';', cells));
  }

  lemma PrintedRow(m: Machine, lineEnd: string, limit: nat)
    requires Printable(m, lineEnd, limit)
    ensures var line := PrintMachine(m);
      LineText(line) && StripCR(line) == line && RowOf(line) == Ok(m)
  {
    hide ToDecimal, Plain, NumberOf, AllDigits, Join, Columns, CleanAll, UpToNul, StripCR, LineText;
    var number, version := ToDecimal(m.articleNumber), ToDecimal(m.version);
    NumberColumn(m.articleNumber, SIZE_T);
    NumberColumn(m.version, UINT8);
    var line := PrintMachine(m);
    FourJoined(number, m.name, m.fileName, version);
    PrintedLine(number, m.name, m.fileName, version);
    PrintedColumns([number, m.name, m.fileName, version], line);
  }

  /** A text without line ends and NULs. */
  predicate LineText(s: string) {
    forall i :: 0 <= i < |s| ==> s[i] != '\n' && s[i] != '\0'
  }

  lemma FourJoined(a: string, b: string, c: string, d: string)
    ensures Join(';', [a, b, c, d]) == a + ";" + b + ";" + c + ";" + d
  {
    assert [c, d][1..] == [d];
    assert Join(';', [c, d]) == c + ";" + d;
    assert [b, c, d][1..] == [c, d];
    assert Join(';', [b, c, d]) == b + ";" + (c + ";" + d);
    assert [a, b, c, d][1..] == [b, c, d];
    assert Join(';', [a, b, c, d]) == a + ";" + (b + ";" + (c + ";" + d));
  }

  lemma PrintedLine(a: string, b: string, c: string, d: string)
    requires Plain(a) && Plain(b) && Plain(c) && Plain(d) && d != "" && AllDigits(d)
    ensures var line := a + ";" + b + ";" + c + ";" + d;
      LineText(line) && StripCR(line) == line && UpToNul(line) == line
  {}

  /** Plain cells come back from their row. */
  lemma PrintedColumns(cells: seq<string>, line: string)
    requires |cells| == 4 && (forall k :: 0 <= k < 4 ==> Plain(cells[k])) && line == Join(';', cells)
    ensures Columns(SEMICOLON, Some(line), 4) == Ok(cells) && CleanAll(SEMICOLON, BLANKS, cells) == cells
  {
    forall k | 0 <= k < 4
      ensures Closed(SEMICOLON, cells[k])
    {
      PlainIsClosed(SEMICOLON, cells[k]);
    }
    hide Closed, Join, Cells, Columns;
    CutJoined(SEMICOLON, cells);
    ColumnsMeaning(SEMICOLON, line, 4);
  }

  /** The line of a machine is taken off, and the machine joins the others unless its number is there already. */
  lemma MachineInFront(m: Machine, lineEnd: string, rest: string, limit: nat, before: map<nat, Machine>)
    requires IsLineEnd(lineEnd) && Printable(m, lineEnd, limit)
    ensures Rows(PrintMachine(m) + (lineEnd + rest), limit, before) == Rows(rest, limit, Emplace(before, m))
  {
    hide RowOf, PrintMachine, LineLength, FirstLine, AfterLine;
    PrintedRow(m, lineEnd, limit);
    LineInFront(PrintMachine(m), lineEnd, rest, limit);
    hide StripCR;
    RowsStep(PrintMachine(m) + (lineEnd + rest), limit, before);
  }

  /** Rows add the first machine of each number to the machines that are there, which keep their places; then reading goes on. */
  lemma {:induction false} PrintedRows(machines: seq<Machine>, lineEnd: string, rest: string, limit: nat, before: map<nat, Machine>)
    requires IsLineEnd(lineEnd) && forall k :: 0 <= k < |machines| ==> Printable(machines[k], lineEnd, limit)
    ensures Rows(PrintMachines(machines, lineEnd) + rest, limit, before) == Rows(rest, limit, FirstOfEach(machines) + before)
  {
    hide Rows, PrintMachine, IsLineEnd, Printable;
    if machines == [] {
      assert map[] + before == before && PrintMachines(machines, lineEnd) + rest == rest;
    } else {
      var m, more := machines[0], PrintMachines(machines[1..], lineEnd);
      MachineInFront(m, lineEnd, more + rest, limit, before);
      assert PrintMachine(m) + (lineEnd + (more + rest)) == PrintMachine(m) + (lineEnd + more) + rest;
      PrintedRows(machines[1..], lineEnd, rest, limit, Emplace(before, m));
      assert FirstOfEach(machines) + before == FirstOfEach(machines[1..]) + Emplace(before, m);
    }
  }

  /**
    A table of a header line, one line for each machine and something else is loaded as the first
    machine of every article number and whatever the rest is read as. The file may begin with a byte
    order mark, and its lines may end in either way.
   */
  lemma TableRead(mark: bool, header: string, machines: seq<Machine>, lineEnd: string, rest: string, limit: nat)
    requires IsLineEnd(lineEnd) && Writable(header, lineEnd) && !(BYTE_ORDER_MARK <= header) && |header| + |lineEnd| <= limit
    requires forall k :: 0 <= k < |machines| ==> Printable(machines[k], lineEnd, limit)
    ensures var text := header + (lineEnd + (PrintMachines(machines, lineEnd) + rest));
      Table(Content(if mark then BYTE_ORDER_MARK + text else text), limit) == Rows(rest, limit, FirstOfEach(machines))
  {
    var rows := PrintMachines(machines, lineEnd) + rest;
    var text := header + (lineEnd + rows);
    ContentMeaning(text);
    assert !(BYTE_ORDER_MARK <= text) by {
      NoMark(header, lineEnd, rows);
    }
    hide LineLength, AfterLine, PrintMachines, Rows, Content, FirstOfEach, Table, StripCR, FirstLine;
    LineInFront(header, lineEnd, rows, limit);
    TableStep(text, limit);
    PrintedRows(machines, lineEnd, rest, limit, map[]);
    assert FirstOfEach(machines) + map[] == FirstOfEach(machines);
  }

  lemma NoMark(header: string, lineEnd: string, rows: string)
    requires IsLineEnd(lineEnd) && !(BYTE_ORDER_MARK <= header)
    ensures !(BYTE_ORDER_MARK <= header + (lineEnd + rows))
  {
    var text := header + (lineEnd + rows);
    if |header| < 3 {
      assert text[|header|] == lineEnd[0];
    } else {
      assert text[..3] == header[..3];
    }
  }

  /** The first line that is no machine, or is too long, ends the loading with its error. */
  lemma BadLine(line: string, lineEnd: string, more: string, limit: nat, before: map<nat, Machine>)
    requires IsLineEnd(lineEnd) && Writable(line, lineEnd)
    ensures |line| + |lineEnd| <= limit && RowOf(line).Err? ==> Rows(line + (lineEnd + more), limit, before) == Err(RowOf(line).error)
    ensures |line| + |lineEnd| > limit ==> Rows(line + (lineEnd + more), limit, before) == Err(TooLong)
  {
    hide RowOf, LineLength, FirstLine, AfterLine, StripCR;
    LineInFront(line, lineEnd, more, |line| + |lineEnd|);
    RowsStep(line + (lineEnd + more), limit, before);
  }

  /** A table with nothing but its machines is loaded as the first machine of every article number. */
  lemma TableRoundTrip(mark: bool, header: string, machines: seq<Machine>, lineEnd: string, limit: nat)
    requires IsLineEnd(lineEnd) && Writable(header, lineEnd) && !(BYTE_ORDER_MARK <= header) && |header| + |lineEnd| <= limit
    requires forall k :: 0 <= k < |machines| ==> Printable(machines[k], lineEnd, limit)
    ensures var text := header + (lineEnd + PrintMachines(machines, lineEnd));
      Table(Content(if mark then BYTE_ORDER_MARK + text else text), limit) == Ok(FirstOfEach(machines))
  {
    hide LineLength, AfterLine, PrintMachines, Content, FirstOfEach, Table, StripCR, FirstLine, Writable, Printable, IsLineEnd;
    TableRead(mark, header, machines, lineEnd, "", limit);
    assert PrintMachines(machines, lineEnd) + "" == PrintMachines(machines, lineEnd);
    RowsStep("", limit, FirstOfEach(machines));
  }
}
