/**
  The columns of a line as src/include/io/csv.hpp understands them, on strings: where a column
  ends, what trimming and unquoting leave of it, and when a row or a header is accepted.
 */
module ColumnText {
  import opened Basics
  import opened CStrings

  /** The quote policies: no_quote_escape and double_quote_escape. */
  datatype Quoting = NoQuotes(sep: char) | DoubleQuotes(sep: char, quote: char)

  predicate QuotingOk(q: Quoting) {
    q.sep != '\0' && (q.DoubleQuotes? ==> q.quote != q.sep && q.quote != '\0')
  }

  datatype ColumnError = NotClosed | TooFewColumns | TooManyColumns | Duplicated | ExtraColumn | MissingColumn

  predicate IsQuote(q: Quoting, c: char) {
    q.DoubleQuotes? && c == q.quote
  }

  // ----- where a column ends -----

  /** The length of the first column, None when a quote is not closed. */
  function ColumnEnd(q: Quoting, s: string, inside: bool): (r: Option<nat>)
    ensures r.Some? ==> r.value <= |s| && (r.value < |s| ==> s[r.value] == q.sep)
  {
    if s == "" then (if inside then None else Some(0))
    else if !inside && s[0] == q.sep then Some(0)
    else Later(1, ColumnEnd(q, s[1..], if IsQuote(q, s[0]) then !inside else inside))
  }

  function Later(n: nat, r: Option<nat>): Option<nat> {
    if r.None? then None else Some(n + r.value)
  }

  /** The number of quotes. */
  function Quotes(q: Quoting, s: string): nat {
    if s == "" then 0 else (if IsQuote(q, s[0]) then 1 else 0) + Quotes(q, s[1..])
  }

  /** A position with an even number of quotes before it, where a separator or the end counts. */
  predicate Ends(q: Quoting, s: string, inside: bool, n: nat) {
    && n <= |s| && (n == |s| || s[n] == q.sep)
    && (Quotes(q, s[..n]) % 2 == 0) == !inside
  }

  /** The column ends at the first separator outside quotes, and a quote is not closed if there is no such place. */
  lemma {:induction false} ColumnEndMeaning(q: Quoting, s: string, inside: bool)
    requires QuotingOk(q)
    ensures var r := ColumnEnd(q, s, inside);
      && (r.Some? ==> Ends(q, s, inside, r.value) && forall m: nat :: m < r.value ==> !Ends(q, s, inside, m))
      && (r.None? ==> forall m: nat :: !Ends(q, s, inside, m))
  {
    if s != "" && (inside || s[0] != q.sep) {
      var inside' := if IsQuote(q, s[0]) then !inside else inside;
      ColumnEndMeaning(q, s[1..], inside');
      assert s[..0] == "";
      forall m: nat
        ensures Ends(q, s, inside, m) <==> m > 0 && Ends(q, s[1..], inside', m - 1)
      {
        EndsStep(q, s, inside, m);
      }
    }
  }

  lemma EndsStep(q: Quoting, s: string, inside: bool, m: nat)
    requires s != "" && (inside || s[0] != q.sep)
    ensures Ends(q, s, inside, m) <==> m > 0 && Ends(q, s[1..], if IsQuote(q, s[0]) then !inside else inside, m - 1)
  {
    if 0 < m <= |s| {
      assert s[..m][1..] == s[1..][..m - 1];
    }
  }

  /** One step of the scan. */
  lemma ColumnEndStep(q: Quoting, s: string, i: nat, inside: bool)
    requires i < |s| && (inside || s[i] != q.sep)
    ensures Later(i, ColumnEnd(q, s[i..], inside))
         == Later(i + 1, ColumnEnd(q, s[i + 1..], if IsQuote(q, s[i]) then !inside else inside))
  {
    assert s[i..][1..] == s[i + 1..];
  }

  /** Where the scan stops. */
  lemma ColumnEndStops(q: Quoting, s: string, i: nat)
    requires i <= |s|
    ensures i == |s| || s[i] == q.sep ==> ColumnEnd(q, s[i..], false) == Some(0)
    ensures i == |s| ==> ColumnEnd(q, s[i..], true) == None
  {}

  // ----- what is left of a column -----

  function TrimLeft(blanks: set<char>, s: string): string {
    if s != "" && s[0] in blanks then TrimLeft(blanks, s[1..]) else s
  }

  function TrimRight(blanks: set<char>, s: string): string {
    if s != "" && s[|s| - 1] in blanks then TrimRight(blanks, s[..|s| - 1]) else s
  }

  function Trimmed(blanks: set<char>, s: string): string {
    TrimRight(blanks, TrimLeft(blanks, s))
  }

  lemma TrimLeftStep(blanks: set<char>, s: string, k: nat)
    requires k <= |s|
    ensures TrimLeft(blanks, s[k..]) == if k < |s| && s[k] in blanks then TrimLeft(blanks, s[k + 1..]) else s[k..]
  {
    assert k < |s| ==> s[k..][1..] == s[k + 1..];
  }

  lemma TrimRightStep(blanks: set<char>, s: string, from: nat, to: nat)
    requires from <= to <= |s|
    ensures TrimRight(blanks, s[from..to])
         == if from < to && s[to - 1] in blanks then TrimRight(blanks, s[from..to - 1]) else s[from..to]
  {
    assert from < to ==> s[from..to][..to - from - 1] == s[from..to - 1];
  }

  /** Trimming takes blanks off both ends, and all of them. */
  lemma TrimmedMeaning(blanks: set<char>, s: string) returns (from: nat, to: nat)
    ensures from <= to <= |s| && Trimmed(blanks, s) == s[from..to]
    ensures forall i :: 0 <= i < from || to <= i < |s| ==> s[i] in blanks
    ensures from < to ==> s[from] !in blanks && s[to - 1] !in blanks
  {
    hide TrimLeft, TrimRight;
    from, to := 0, |s|;
    assert s[0..] == s;
    while from < |s| && s[from] in blanks
      invariant from <= |s| && TrimLeft(blanks, s) == TrimLeft(blanks, s[from..])
      invariant forall i :: 0 <= i < from ==> s[i] in blanks
    {
      TrimLeftStep(blanks, s, from);
      from := from + 1;
    }
    TrimLeftStep(blanks, s, from);
    assert s[from..] == s[from..to];
    while from < to && s[to - 1] in blanks
      invariant from <= to <= |s| && Trimmed(blanks, s) == TrimRight(blanks, s[from..to])
      invariant forall i :: to <= i < |s| ==> s[i] in blanks
    {
      TrimRightStep(blanks, s, from, to);
      to := to - 1;
    }
    TrimRightStep(blanks, s, from, to);
  }

  /** Blanks around a text that has none at its ends are all that is taken off. */
  lemma TrimmedIs(blanks: set<char>, left: string, text: string, right: string)
    requires forall i :: 0 <= i < |left| ==> left[i] in blanks
    requires forall i :: 0 <= i < |right| ==> right[i] in blanks
    requires text == "" || (text[0] !in blanks && text[|text| - 1] !in blanks)
    ensures Trimmed(blanks, left + (text + right)) == text
  {
    hide Trimmed;
    var s := left + (text + right);
    var from, to := TrimmedMeaning(blanks, s);
    if text == "" {
      assert forall i :: 0 <= i < |s| ==> s[i] in blanks;
    } else {
      var last := |left| + |text| - 1;
      assert s[|left|] == text[0] && s[last] == text[|text| - 1];
      assert from <= |left| <= last < to;
      assert forall i :: 0 <= i < |left| ==> s[i] in blanks;
      assert forall i :: last < i < |s| ==> s[i] in blanks;
      assert from == |left| && to == last + 1;
      assert s[from..to] == text;
    }
  }

  /** Two quotes in a row stand for one. */
  function Collapse(quote: char, s: string): (r: string)
    ensures |r| <= |s|
  {
    if s == "" then ""
    else if s[0] == quote && |s| > 1 && s[1] == quote then [quote] + Collapse(quote, s[2..])
    else [s[0]] + Collapse(quote, s[1..])
  }

  lemma {:induction false} CollapseNoNul(quote: char, s: string)
    requires NoNul(s)
    ensures NoNul(Collapse(quote, s))
    decreases |s|
  {
    if s != "" {
      CollapseNoNul(quote, if s[0] == quote && |s| > 1 && s[1] == quote then s[2..] else s[1..]);
    }
  }

  lemma CollapseStep(quote: char, s: string, n: nat)
    requires n <= |s|
    ensures var k := if n + 1 < |s| && s[n] == quote && s[n + 1] == quote then n + 1 else n;
      Collapse(quote, s[n..]) == if n == |s| then "" else [s[k]] + Collapse(quote, s[k + 1..])
  {
    assert n < |s| ==> s[n..][1..] == s[n + 1..];
    assert n + 1 < |s| ==> s[n..][2..] == s[n + 2..];
  }

  function Unescaped(q: Quoting, s: string): string {
    if q.DoubleQuotes? && |s| >= 2 && s[0] == q.quote && s[|s| - 1] == q.quote then Collapse(q.quote, s[1..|s| - 1]) else s
  }

  function Clean(q: Quoting, blanks: set<char>, s: string): string {
    Unescaped(q, Trimmed(blanks, s))
  }

  function Repeat(c: char, n: nat): string {
    seq(n, _ => c)
  }

  lemma FirstOfTwo(quote: char, rest: string)
    ensures Collapse(quote, [quote, quote] + rest) == [quote] + Collapse(quote, rest)
    ensures rest == "" || rest[0] != quote ==> Collapse(quote, [quote] + rest) == [quote] + Collapse(quote, rest)
  {
    assert ([quote, quote] + rest)[2..] == rest && ([quote] + rest)[1..] == rest;
  }

  /** Of the quotes in a row, every second one is dropped; an odd one stays. */
  lemma {:induction false} CollapseQuotes(quote: char, n: nat, rest: string)
    requires rest == "" || rest[0] != quote
    ensures Collapse(quote, Repeat(quote, n) + rest) == Repeat(quote, (n + 1) / 2) + Collapse(quote, rest)
  {
    hide Collapse;
    var tail := Collapse(quote, rest);
    if n == 0 {
      assert Repeat(quote, 0) + rest == rest && Repeat(quote, 0) + tail == tail;
    } else if n == 1 {
      FirstOfTwo(quote, rest);
      assert Repeat(quote, 1) == [quote];
    } else {
      CollapseQuotes(quote, n - 2, rest);
      FirstOfTwo(quote, Repeat(quote, n - 2) + rest);
      assert Repeat(quote, n) + rest == [quote, quote] + (Repeat(quote, n - 2) + rest);
      assert Repeat(quote, (n + 1) / 2) + tail == [quote] + (Repeat(quote, (n - 1) / 2) + tail);
    }
  }

  /** Any other character stays. */
  lemma CollapseOther(quote: char, c: char, rest: string)
    requires c != quote
    ensures Collapse(quote, [c] + rest) == [c] + Collapse(quote, rest)
  {
    assert ([c] + rest)[1..] == rest;
  }

  predicate BlanksAround(blanks: set<char>, left: string, text: string, right: string) {
    && (forall i :: 0 <= i < |left| ==> left[i] in blanks)
    && (forall i :: 0 <= i < |right| ==> right[i] in blanks)
    && (text == "" || (text[0] !in blanks && text[|text| - 1] !in blanks))
  }

  /** A cell that is not in quotes is its text without the blanks around it. */
  lemma UnquotedCell(q: Quoting, blanks: set<char>, left: string, text: string, right: string)
    requires BlanksAround(blanks, left, text, right)
    requires |text| < 2 || !IsQuote(q, text[0]) || !IsQuote(q, text[|text| - 1])
    ensures Clean(q, blanks, left + (text + right)) == text
  {
    hide Trimmed;
    TrimmedIs(blanks, left, text, right);
  }

  // ----- rows -----

  function Cells(q: Quoting, s: string): Result<seq<string>, ColumnError>
    decreases |s|
  {
    match ColumnEnd(q, s, false)
    case None => Err(NotClosed)
    case Some(n) =>
      if n == |s| then Ok([s])
      else match Cells(q, s[n + 1..])
        case Ok(cells) => Ok([s[..n]] + cells)
        case Err(e) => Err(e)
  }

  /** Taking `count` columns off a line, in the order in which the code finds out that something is wrong. */
  function Columns(q: Quoting, line: Option<string>, count: nat): Result<seq<string>, ColumnError>
    decreases count
  {
    if count == 0 then (if line.None? then Ok([]) else Err(TooManyColumns))
    else if line.None? then Err(TooFewColumns)
    else match ColumnEnd(q, line.value, false)
      case None => Err(NotClosed)
      case Some(n) => PrependCell(line.value[..n], Columns(q, Following(line.value, n), count - 1))
  }

  function Following(s: string, n: nat): Option<string>
    requires n <= |s|
  {
    if n == |s| then None else Some(s[n + 1..])
  }

  function PrependCell(cell: string, r: Result<seq<string>, ColumnError>): Result<seq<string>, ColumnError> {
    match r case Ok(cells) => Ok([cell] + cells) case Err(e) => Err(e)
  }

  function PrependCells(cells: seq<string>, r: Result<seq<string>, ColumnError>): Result<seq<string>, ColumnError> {
    match r case Ok(more) => Ok(cells + more) case Err(e) => Err(e)
  }

  lemma PrependNothing(r: Result<seq<string>, ColumnError>)
    ensures PrependCells([], r) == r
  {
    if r.Ok? {
      assert [] + r.value == r.value;
    }
  }

  lemma ColumnsOver(q: Quoting, line: Option<string>, count: nat)
    requires line.None? || count == 0
    ensures Columns(q, line, count)
         == if count > 0 then Err(TooFewColumns) else if line.None? then Ok([]) else Err(TooManyColumns)
  {}

  /** After some cells, one more column is taken off the line. */
  lemma ColumnsStep(q: Quoting, cells: seq<string>, line: string, count: nat)
    requires count > 0
    ensures PrependCells(cells, Columns(q, Some(line), count)) == match ColumnEnd(q, line, false)
      case None => Err(NotClosed)
      case Some(n) => PrependCells(cells + [line[..n]], Columns(q, Following(line, n), count - 1))
  {
    if ColumnEnd(q, line, false).Some? {
      var n := ColumnEnd(q, line, false).value;
      var more := Columns(q, Following(line, n), count - 1);
      if more.Ok? {
        assert cells + ([line[..n]] + more.value) == cells + [line[..n]] + more.value;
      }
    }
  }

  /** The cells that end before a quote is opened that is not closed; all cells if there is no such quote. */
  function ClosedCells(q: Quoting, s: string): seq<string>
    decreases |s|
  {
    match ColumnEnd(q, s, false)
    case None => []
    case Some(n) => [s[..n]] + if n == |s| then [] else ClosedCells(q, s[n + 1..])
  }

  /**
    A line whose quotes are closed gives its cells if there are as many as asked for, and the right
    error if not. A quote that is not closed is found unless the columns asked for end before it.
   */
  lemma {:induction false} ColumnsMeaning(q: Quoting, s: string, count: nat)
    ensures var cells := ClosedCells(q, s);
      if Cells(q, s).Ok? then
        && Cells(q, s).value == cells && |cells| >= 1
        && Columns(q, Some(s), count) ==
           if |cells| == count then Ok(cells) else if |cells| < count then Err(TooFewColumns) else Err(TooManyColumns)
      else Columns(q, Some(s), count) == Err(if |cells| < count then NotClosed else TooManyColumns)
    decreases |s|
  {
    hide ColumnEnd;
    var end := ColumnEnd(q, s, false);
    if end.Some? {
      var n := end.value;
      assert s[..|s|] == s && [s] + [] == [s];
      if n < |s| {
        ColumnsMeaning(q, s[n + 1..], if count == 0 then 0 else count - 1);
      }
    }
  }

  // ----- writing and reading back -----

  function Doubled(quote: char, text: string): string {
    if text == "" then ""
    else (if text[0] == quote then [quote, quote] else [text[0]]) + Doubled(quote, text[1..])
  }

  /** A text in quotes, as rules 5 to 7 of section 2 of RFC 4180 write it. */
  function Quote(quote: char, text: string): string {
    [quote] + Doubled(quote, text) + [quote]
  }

  function Join(sep: char, cells: seq<string>): string {
    if cells == [] then "" else if |cells| == 1 then cells[0] else cells[0] + [sep] + Join(sep, cells[1..])
  }

  lemma {:induction false} CollapseDoubled(quote: char, text: string)
    ensures Collapse(quote, Doubled(quote, text)) == text
  {
    if text != "" {
      CollapseDoubled(quote, text[1..]);
      var rest := Doubled(quote, text[1..]);
      if text[0] == quote {
        assert ([quote, quote] + rest)[2..] == rest;
      } else {
        assert ([text[0]] + rest)[1..] == rest;
      }
    }
  }

  /** A doubled quote, or any other character, leaves the scan inside the quotes. */
  lemma InsideStep(q: Quoting, c: char, tail: string)
    requires QuotingOk(q) && q.DoubleQuotes?
    ensures c == q.quote ==> ColumnEnd(q, [c, c] + tail, true) == Later(2, ColumnEnd(q, tail, true))
    ensures c != q.quote ==> ColumnEnd(q, [c] + tail, true) == Later(1, ColumnEnd(q, tail, true))
  {
    assert ([c, c] + tail)[1..] == [c] + tail && ([c] + tail)[1..] == tail;
  }

  lemma {:induction false} EndOfDoubled(q: Quoting, text: string, rest: string)
    requires QuotingOk(q) && q.DoubleQuotes? && (rest == "" || rest[0] == q.sep)
    ensures ColumnEnd(q, Doubled(q.quote, text) + [q.quote] + rest, true) == Some(|Doubled(q.quote, text)| + 1)
  {
    if text == "" {
      assert ([q.quote] + rest)[1..] == rest;
      assert Doubled(q.quote, text) + [q.quote] + rest == [q.quote] + rest;
    } else {
      EndOfDoubled(q, text[1..], rest);
      var c, more := text[0], Doubled(q.quote, text[1..]);
      var first := if c == q.quote then [c, c] else [c];
      assert Doubled(q.quote, text) == first + more;
      hide ColumnEnd, Doubled;
      InsideStep(q, c, more + [q.quote] + rest);
      assert first + more + [q.quote] + rest == first + (more + [q.quote] + rest);
    }
  }

  /** The end of a quoted text is found, whatever separators and quotes it contains. */
  lemma EndOfQuoted(q: Quoting, text: string, rest: string)
    requires QuotingOk(q) && q.DoubleQuotes? && (rest == "" || rest[0] == q.sep)
    ensures ColumnEnd(q, Quote(q.quote, text) + rest, false) == Some(|Quote(q.quote, text)|)
  {
    EndOfDoubled(q, text, rest);
    assert (Quote(q.quote, text) + rest)[1..] == Doubled(q.quote, text) + [q.quote] + rest;
  }

  /** Reading a quoted text gives the text, blanks inside the quotes included and blanks around them not. */
  lemma QuoteRoundTrip(q: Quoting, blanks: set<char>, left: string, text: string, right: string)
    requires QuotingOk(q) && q.DoubleQuotes? && BlanksAround(blanks, left, Quote(q.quote, text), right)
    ensures Clean(q, blanks, left + (Quote(q.quote, text) + right)) == text
  {
    hide Trimmed;
    var s := Quote(q.quote, text);
    TrimmedIs(blanks, left, s, right);
    CollapseDoubled(q.quote, text);
    assert s[1..|s| - 1] == Doubled(q.quote, text);
  }

  /** A cell that ends where it should, whatever comes after its separator. */
  ghost predicate Closed(q: Quoting, cell: string) {
    forall rest: string :: rest == "" || rest[0] == q.sep ==> ColumnEnd(q, cell + rest, false) == Some(|cell|)
  }

  lemma QuotedIsClosed(q: Quoting, text: string)
    requires QuotingOk(q) && q.DoubleQuotes?
    ensures Closed(q, Quote(q.quote, text))
  {
    forall rest: string | rest == "" || rest[0] == q.sep
      ensures ColumnEnd(q, Quote(q.quote, text) + rest, false) == Some(|Quote(q.quote, text)|)
    {
      EndOfQuoted(q, text, rest);
    }
  }

  lemma {:induction false} EndOfPlain(q: Quoting, cell: string, rest: string)
    requires forall i :: 0 <= i < |cell| ==> cell[i] != q.sep && !IsQuote(q, cell[i])
    requires rest == "" || rest[0] == q.sep
    ensures ColumnEnd(q, cell + rest, false) == Some(|cell|)
  {
    if cell == "" {
      assert cell + rest == rest;
    } else {
      assert (cell + rest)[1..] == cell[1..] + rest;
      EndOfPlain(q, cell[1..], rest);
    }
  }

  lemma PlainIsClosed(q: Quoting, cell: string)
    requires forall i :: 0 <= i < |cell| ==> cell[i] != q.sep && !IsQuote(q, cell[i])
    ensures Closed(q, cell)
  {
    forall rest: string | rest == "" || rest[0] == q.sep
      ensures ColumnEnd(q, cell + rest, false) == Some(|cell|)
    {
      EndOfPlain(q, cell, rest);
    }
  }

  /** A row written with separators between closed cells is cut into those cells. */
  lemma {:induction false} CutJoined(q: Quoting, cells: seq<string>)
    requires cells != [] && forall k :: 0 <= k < |cells| ==> Closed(q, cells[k])
    ensures Cells(q, Join(q.sep, cells)) == Ok(cells)
  {
    hide ColumnEnd;
    var s := Join(q.sep, cells);
    if |cells| == 1 {
      assert s == cells[0] + "";
      assert cells == [s];
    } else {
      var rest := [q.sep] + Join(q.sep, cells[1..]);
      assert s == cells[0] + rest;
      assert ColumnEnd(q, cells[0] + rest, false) == Some(|cells[0]|);
      assert s[..|cells[0]|] == cells[0] && s[|cells[0]| + 1..] == Join(q.sep, cells[1..]);
      assert [cells[0]] + cells[1..] == cells;
      CutJoined(q, cells[1..]);
    }
  }

  function QuoteAll(quote: char, texts: seq<string>): (r: seq<string>)
    ensures |r| == |texts|
  {
    seq(|texts|, i requires 0 <= i < |texts| => Quote(quote, texts[i]))
  }

  /** A row of quoted texts gives the texts back, whatever characters they contain. */
  lemma QuotedRowRoundTrip(q: Quoting, blanks: set<char>, texts: seq<string>)
    requires QuotingOk(q) && q.DoubleQuotes? && q.quote !in blanks && texts != []
    ensures var row := Cells(q, Join(q.sep, QuoteAll(q.quote, texts)));
      && row.Ok? && |row.value| == |texts|
      && forall k :: 0 <= k < |texts| ==> Clean(q, blanks, row.value[k]) == texts[k]
  {
    var cells := QuoteAll(q.quote, texts);
    forall k | 0 <= k < |texts|
      ensures Closed(q, cells[k]) && Clean(q, blanks, cells[k]) == texts[k]
    {
      QuotedIsClosed(q, texts[k]);
      QuoteRoundTrip(q, blanks, "", texts[k], "");
      assert "" + (cells[k] + "") == cells[k];
    }
    CutJoined(q, cells);
  }

  // ----- headers -----

  function IndexOf(names: seq<string>, cell: string): (r: Option<nat>)
    ensures r.Some? ==> r.value < |names| && names[r.value] == cell && forall k :: 0 <= k < r.value ==> names[k] != cell
    ensures r.None? ==> cell !in names
  {
    if names == [] then None
    else if names[0] == cell then Some(0)
    else Later(1, IndexOf(names[1..], cell))
  }

  /** The columns of a header line in order: for each the index of its name, or -1 if it is to be ignored. */
  function HeaderColumns(q: Quoting, blanks: set<char>, line: Option<string>, names: seq<string>, found: set<nat>, ignoreExtra: bool)
    : Result<seq<int>, ColumnError>
    decreases if line.None? then 0 else |line.value| + 1
  {
    if line.None? then Ok([])
    else match ColumnEnd(q, line.value, false)
      case None => Err(NotClosed)
      case Some(n) =>
        match IndexOf(names, Clean(q, blanks, line.value[..n]))
        case Some(i) =>
          if i in found then Err(Duplicated)
          else PrependColumn(i, HeaderColumns(q, blanks, Following(line.value, n), names, found + {i}, ignoreExtra))
        case None =>
          if ignoreExtra then PrependColumn(-1, HeaderColumns(q, blanks, Following(line.value, n), names, found, ignoreExtra))
          else Err(ExtraColumn)
  }

  function PrependColumn(i: int, r: Result<seq<int>, ColumnError>): Result<seq<int>, ColumnError> {
    match r case Ok(order) => Ok([i] + order) case Err(e) => Err(e)
  }

  function PrependColumns(order: seq<int>, r: Result<seq<int>, ColumnError>): Result<seq<int>, ColumnError> {
    match r case Ok(more) => Ok(order + more) case Err(e) => Err(e)
  }

  lemma PrependNoColumns(r: Result<seq<int>, ColumnError>)
    ensures PrependColumns([], r) == r
  {
    if r.Ok? {
      assert [] + r.value == r.value;
    }
  }

  /** After some columns, one more is found in the header. */
  lemma HeaderStep(q: Quoting, blanks: set<char>, order: seq<int>, line: string, names: seq<string>, found: set<nat>, ignoreExtra: bool)
    ensures PrependColumns(order, HeaderColumns(q, blanks, Some(line), names, found, ignoreExtra))
      == match ColumnEnd(q, line, false)
         case None => Err(NotClosed)
         case Some(n) =>
           var at := IndexOf(names, Clean(q, blanks, line[..n]));
           if at.Some? && at.value in found then Err(Duplicated)
           else if at.None? && !ignoreExtra then Err(ExtraColumn)
           else
             PrependColumns(order + [if at.Some? then at.value else -1],
               HeaderColumns(q, blanks, Following(line, n), names, if at.Some? then found + {at.value} else found, ignoreExtra))
  {
    hide Clean, ColumnEnd, IndexOf;
    if ColumnEnd(q, line, false).Some? {
      var n := ColumnEnd(q, line, false).value;
      var at := IndexOf(names, Clean(q, blanks, line[..n]));
      var i := if at.Some? then at.value else -1;
      var more := HeaderColumns(q, blanks, Following(line, n), names, if at.Some? then found + {at.value} else found, ignoreExtra);
      if more.Ok? {
        assert order + ([i] + more.value) == order + [i] + more.value;
      }
    }
  }

  lemma HeaderOver(q: Quoting, blanks: set<char>, names: seq<string>, found: set<nat>, ignoreExtra: bool)
    ensures HeaderColumns(q, blanks, None, names, found, ignoreExtra) == Ok([])
  {}

  function Header(q: Quoting, blanks: set<char>, line: string, names: seq<string>, ignoreExtra: bool, ignoreMissing: bool)
    : Result<seq<int>, ColumnError>
  {
    match HeaderColumns(q, blanks, Some(line), names, {}, ignoreExtra)
    case Err(e) => Err(e)
    case Ok(order) =>
      if !ignoreMissing && exists i :: 0 <= i < |names| && i !in order then Err(MissingColumn) else Ok(order)
  }

  predicate Distinct<T(==)>(s: seq<T>) {
    forall i, j :: 0 <= i < j < |s| ==> s[i] != s[j]
  }

  predicate FirstIndex(names: seq<string>, i: int, cell: string) {
    0 <= i < |names| && names[i] == cell && forall k :: 0 <= k < i ==> names[k] != cell
  }

  /** Each column stands under its name, no name is used twice, and names found before are not used again. */
  predicate Placed(order: seq<int>, cells: seq<string>, names: seq<string>, found: set<nat>) {
    && |order| == |cells|
    && (forall j :: 0 <= j < |order| && order[j] != -1 ==> FirstIndex(names, order[j], cells[j]))
    && (forall j :: 0 <= j < |order| && order[j] != -1 ==> order[j] !in found)
    && (forall j :: 0 <= j < |order| && order[j] == -1 ==> cells[j] !in names)
    && (forall i, j :: 0 <= i < j < |order| && order[i] == order[j] ==> order[i] == -1)
  }

  function CleanAll(q: Quoting, blanks: set<char>, cells: seq<string>): (r: seq<string>)
    ensures |r| == |cells|
  {
    seq(|cells|, i requires 0 <= i < |cells| => Clean(q, blanks, cells[i]))
  }

  lemma CellsStep(q: Quoting, s: string, n: nat)
    requires Cells(q, s).Ok? && ColumnEnd(q, s, false) == Some(n)
    ensures n == |s| ==> Cells(q, s) == Ok([s[..n]])
    ensures n < |s| ==> Cells(q, s[n + 1..]).Ok? && Cells(q, s) == Ok([s[..n]] + Cells(q, s[n + 1..]).value)
  {
    hide ColumnEnd;
    assert s[..|s|] == s;
  }

  lemma CleanStep(q: Quoting, blanks: set<char>, cell: string, cells: seq<string>)
    ensures CleanAll(q, blanks, [cell] + cells) == [Clean(q, blanks, cell)] + CleanAll(q, blanks, cells)
  {
    hide Clean;
  }

  lemma PlacedStep(i: int, order: seq<int>, cell: string, cells: seq<string>, names: seq<string>, found: set<nat>)
    requires if i == -1 then cell !in names && Placed(order, cells, names, found)
             else FirstIndex(names, i, cell) && i !in found && Placed(order, cells, names, found + {i})
    ensures Placed([i] + order, [cell] + cells, names, found)
  {}

  lemma {:induction false} HeaderColumnsMeaning(q: Quoting, blanks: set<char>, s: string, names: seq<string>, found: set<nat>, ignoreExtra: bool)
    requires HeaderColumns(q, blanks, Some(s), names, found, ignoreExtra).Ok?
    ensures Cells(q, s).Ok?
    ensures Placed(HeaderColumns(q, blanks, Some(s), names, found, ignoreExtra).value, CleanAll(q, blanks, Cells(q, s).value), names, found)
    ensures !ignoreExtra ==> -1 !in HeaderColumns(q, blanks, Some(s), names, found, ignoreExtra).value
    decreases |s|
  {
    hide Placed, Clean, ColumnEnd, IndexOf, FirstIndex;
    assert CleanAll(q, blanks, []) == [];
    hide CleanAll;
    var n := ColumnEnd(q, s, false).value;
    var cell := Clean(q, blanks, s[..n]);
    var at := IndexOf(names, cell);
    var i := if at.Some? then at.value else -1;
    var found' := if at.Some? then found + {at.value} else found;
    var order: seq<int>, cells: seq<string> := [], [];
    if n < |s| {
      HeaderColumnsMeaning(q, blanks, s[n + 1..], names, found', ignoreExtra);
      order := HeaderColumns(q, blanks, Some(s[n + 1..]), names, found', ignoreExtra).value;
      cells := Cells(q, s[n + 1..]).value;
    } else {
      EmptyPlaced(names, found');
    }
    assert HeaderColumns(q, blanks, Some(s), names, found, ignoreExtra).value == [i] + order;
    CellsStep(q, s, n);
    assert Cells(q, s).value == [s[..n]] + cells;
    CleanStep(q, blanks, s[..n], cells);
    PlacedStep(i, order, cell, CleanAll(q, blanks, cells), names, found);
  }

  lemma EmptyPlaced(names: seq<string>, found: set<nat>)
    ensures Placed([], [], names, found)
  {}

  lemma IndexOfIs(names: seq<string>, i: nat, cell: string)
    requires FirstIndex(names, i, cell)
    ensures IndexOf(names, cell) == Some(i)
  {}

  lemma {:induction false} HeaderColumnsSucceed(q: Quoting, blanks: set<char>, s: string, names: seq<string>, found: set<nat>)
    requires Cells(q, s).Ok? && Distinct(CleanAll(q, blanks, Cells(q, s).value))
    requires forall c :: c in CleanAll(q, blanks, Cells(q, s).value) ==> c in names && IndexOf(names, c).Some? && IndexOf(names, c).value !in found
    ensures HeaderColumns(q, blanks, Some(s), names, found, false).Ok?
    decreases |s|
  {
    hide Clean, ColumnEnd, IndexOf;
    var n := ColumnEnd(q, s, false).value;
    assert s[..|s|] == s;
    var cells := CleanAll(q, blanks, Cells(q, s).value);
    assert cells[0] == Clean(q, blanks, s[..n]) && cells[0] in cells;
    if n < |s| {
      var rest := CleanAll(q, blanks, Cells(q, s[n + 1..]).value);
      assert cells[1..] == rest;
      var found' := found + {IndexOf(names, cells[0]).value};
      forall c | c in rest
        ensures c in names && IndexOf(names, c).Some? && IndexOf(names, c).value !in found'
      {
        assert c in cells && c != cells[0];
      }
      HeaderColumnsSucceed(q, blanks, s[n + 1..], names, found');
    }
  }

  /** The columns are a rearrangement of the names. */
  predicate Permutes(order: seq<int>, names: seq<string>, cells: seq<string>) {
    && |order| == |cells| == |names| && Distinct(order)
    && (forall j :: 0 <= j < |order| ==> 0 <= order[j] < |names| && names[order[j]] == cells[j])
    && (forall i :: 0 <= i < |names| ==> i in order)
  }

  /**
    When nothing is to be ignored, a header is accepted exactly when its cells are the column names
    in some order, without repetition; the order it gives is then a permutation of the columns.
   */
  lemma HeaderExact(q: Quoting, blanks: set<char>, s: string, names: seq<string>)
    ensures var r := Header(q, blanks, s, names, false, false);
      && (r.Ok? ==> Cells(q, s).Ok? && Permutes(r.value, names, CleanAll(q, blanks, Cells(q, s).value)))
      && (r.Ok? <==>
          && Cells(q, s).Ok? && Distinct(names) && Distinct(CleanAll(q, blanks, Cells(q, s).value))
          && (forall c :: c in CleanAll(q, blanks, Cells(q, s).value) <==> c in names))
  {
    hide Clean, ColumnEnd, HeaderColumns, Cells, CleanAll, Placed, Permutes, IndexOf;
    var r := HeaderColumns(q, blanks, Some(s), names, {}, false);
    if r.Ok? {
      HeaderColumnsMeaning(q, blanks, s, names, {}, false);
      var cells := CleanAll(q, blanks, Cells(q, s).value);
      if forall i :: 0 <= i < |names| ==> i in r.value {
        PlacedPermutes(r.value, names, cells);
      } else {
        MissingName(r.value, names, cells);
      }
    } else if Cells(q, s).Ok? && Distinct(CleanAll(q, blanks, Cells(q, s).value)) {
      var cells := CleanAll(q, blanks, Cells(q, s).value);
      if forall c :: c in cells ==> c in names {
        HeaderColumnsSucceed(q, blanks, s, names, {});
      }
    }
  }

  // ----- which error a header gives -----

  /** A cell that repeats a column name, or that is no column name although these are not to be ignored. */
  predicate BadCell(seen: seq<string>, cells: seq<string>, j: nat, names: seq<string>, ignoreExtra: bool)
    requires j < |cells|
  {
    if cells[j] in names then cells[j] in seen + cells[..j] else !ignoreExtra
  }

  predicate FoundIn(found: set<nat>, seen: seq<string>, names: seq<string>) {
    forall c :: c in names ==> IndexOf(names, c).Some? && (IndexOf(names, c).value in found <==> c in seen)
  }

  lemma IndexOfName(names: seq<string>, c: string)
    ensures IndexOf(names, c).Some? <==> c in names
  {}

  lemma FoundStep(found: set<nat>, seen: seq<string>, names: seq<string>, cell: string)
    requires FoundIn(found, seen, names)
    ensures FoundIn(if cell in names && IndexOf(names, cell).Some? then found + {IndexOf(names, cell).value} else found, seen + [cell], names)
  {}

  lemma BadCellsStep(seen: seq<string>, cell: string, rest: seq<string>, names: seq<string>, ignoreExtra: bool)
    ensures BadCell(seen, [cell] + rest, 0, names, ignoreExtra) <==> if cell in names then cell in seen else !ignoreExtra
    ensures forall j :: 0 <= j < |rest| ==>
      (BadCell(seen, [cell] + rest, j + 1, names, ignoreExtra) <==> BadCell(seen + [cell], rest, j, names, ignoreExtra))
  {
    assert seen + ([cell] + rest)[..0] == seen;
    forall j | 0 <= j < |rest|
      ensures BadCell(seen, [cell] + rest, j + 1, names, ignoreExtra) <==> BadCell(seen + [cell], rest, j, names, ignoreExtra)
    {
      assert seen + ([cell] + rest)[..j + 1] == seen + [cell] + rest[..j];
    }
  }

  /** What the first cell of a header does. */
  lemma FirstHeaderCell(q: Quoting, blanks: set<char>, s: string, n: nat, names: seq<string>, found: set<nat>, ignoreExtra: bool)
    requires ColumnEnd(q, s, false) == Some(n)
    ensures var at, r := IndexOf(names, Clean(q, blanks, s[..n])), HeaderColumns(q, blanks, Some(s), names, found, ignoreExtra);
      if at.Some? && at.value in found then r == Err(Duplicated)
      else if at.None? && !ignoreExtra then r == Err(ExtraColumn)
      else
        var more := HeaderColumns(q, blanks, Following(s, n), names, if at.Some? then found + {at.value} else found, ignoreExtra);
        (more.Ok? ==> r.Ok?) && (more.Err? ==> r == Err(more.error))
    ensures ClosedCells(q, s) == [s[..n]] + (if n == |s| then [] else ClosedCells(q, s[n + 1..]))
    ensures Cells(q, s).Ok? <==> n == |s| || Cells(q, s[n + 1..]).Ok?
  {
    hide Clean, ColumnEnd, IndexOf;
  }

  predicate HeaderResult(r: Result<seq<int>, ColumnError>, seen: seq<string>, cells: seq<string>, names: seq<string>,
                         ignoreExtra: bool, closed: bool, bad: nat) {
    && bad <= |cells| && (forall j :: 0 <= j < bad ==> !BadCell(seen, cells, j, names, ignoreExtra))
    && if bad < |cells| then BadCell(seen, cells, bad, names, ignoreExtra) && r == Err(if cells[bad] in names then Duplicated else ExtraColumn)
       else if closed then r.Ok? else r == Err(NotClosed)
  }

  lemma HeaderResultStep(r: Result<seq<int>, ColumnError>, more: Result<seq<int>, ColumnError>, seen: seq<string>, cell: string, rest: seq<string>,
                         names: seq<string>, ignoreExtra: bool, closed: bool, bad: nat)
    requires HeaderResult(more, seen + [cell], rest, names, ignoreExtra, closed, bad)
    requires (more.Ok? ==> r.Ok?) && (more.Err? ==> r == Err(more.error)) && !BadCell(seen, [cell] + rest, 0, names, ignoreExtra)
    ensures HeaderResult(r, seen, [cell] + rest, names, ignoreExtra, closed, bad + 1)
  {
    hide BadCell;
    BadCellsStep(seen, cell, rest, names, ignoreExtra);
    var cells := [cell] + rest;
    forall j | 0 <= j < bad + 1
      ensures !BadCell(seen, cells, j, names, ignoreExtra)
    {
      if j > 0 {
        assert BadCell(seen, cells, (j - 1) + 1, names, ignoreExtra) <==> BadCell(seen + [cell], rest, j - 1, names, ignoreExtra);
      }
    }
  }

  /** The first bad cell decides the error; without one, an open quote does, and without that the columns are found. */
  lemma {:induction false} HeaderColumnsExact(q: Quoting, blanks: set<char>, s: string, names: seq<string>, found: set<nat>,
                                              seen: seq<string>, ignoreExtra: bool) returns (bad: nat)
    requires FoundIn(found, seen, names)
    ensures HeaderResult(HeaderColumns(q, blanks, Some(s), names, found, ignoreExtra), seen, CleanAll(q, blanks, ClosedCells(q, s)),
                         names, ignoreExtra, Cells(q, s).Ok?, bad)
    decreases |s|
  {
    bad := 0;
    if ColumnEnd(q, s, false).None? {
      return;
    }
    var n := ColumnEnd(q, s, false).value;
    hide Clean, ColumnEnd, IndexOf, FoundIn, BadCell, HeaderColumns, ClosedCells, Cells, CleanAll;
    var cell := Clean(q, blanks, s[..n]);
    var rest := if n == |s| then [] else ClosedCells(q, s[n + 1..]);
    var clean := CleanAll(q, blanks, rest);
    FirstHeaderCell(q, blanks, s, n, names, found, ignoreExtra);
    CleanStep(q, blanks, s[..n], rest);
    BadCellsStep(seen, cell, clean, names, ignoreExtra);
    FoundStep(found, seen, names, cell);
    FoundAgrees(found, seen, names, cell);
    if !BadCell(seen, [cell] + clean, 0, names, ignoreExtra) {
      var found' := if cell in names then found + {IndexOf(names, cell).value} else found;
      var more := HeaderColumns(q, blanks, Following(s, n), names, found', ignoreExtra);
      var closed := n == |s| || Cells(q, s[n + 1..]).Ok?;
      var next := 0;
      if n < |s| {
        next := HeaderColumnsExact(q, blanks, s[n + 1..], names, found', seen + [cell], ignoreExtra);
      } else {
        HeaderOver(q, blanks, names, found', ignoreExtra);
      }
      HeaderResultStep(HeaderColumns(q, blanks, Some(s), names, found, ignoreExtra), more, seen, cell, clean, names, ignoreExtra, closed, next);
      bad := next + 1;
    }
  }

  lemma FoundAgrees(found: set<nat>, seen: seq<string>, names: seq<string>, cell: string)
    requires FoundIn(found, seen, names)
    ensures IndexOf(names, cell).Some? <==> cell in names
    ensures cell in names ==> (IndexOf(names, cell).value in found <==> cell in seen)
  {
    IndexOfName(names, cell);
  }

  /**
    What a header line gives, with either flag: the error of its first bad cell, else that of an open
    quote, else that of a column name that is missing, and else the order of its columns.
   */
  lemma HeaderMeaning(q: Quoting, blanks: set<char>, s: string, names: seq<string>, ignoreExtra: bool, ignoreMissing: bool)
    returns (bad: nat)
    requires Distinct(names)
    ensures var cells, r := CleanAll(q, blanks, ClosedCells(q, s)), Header(q, blanks, s, names, ignoreExtra, ignoreMissing);
      && bad <= |cells| && (forall j :: 0 <= j < bad ==> !BadCell([], cells, j, names, ignoreExtra))
      && if bad < |cells| then BadCell([], cells, bad, names, ignoreExtra) && r == Err(if cells[bad] in names then Duplicated else ExtraColumn)
         else if Cells(q, s).Err? then r == Err(NotClosed)
         else if !ignoreMissing && exists name :: name in names && name !in cells then r == Err(MissingColumn)
         else r.Ok? && Placed(r.value, cells, names, {})
  {
    hide Clean, ColumnEnd, IndexOf, BadCell, Placed, CleanAll, HeaderColumns, Cells, ClosedCells, FoundIn;
    NothingFound(names);
    bad := HeaderColumnsExact(q, blanks, s, names, {}, [], ignoreExtra);
    if HeaderColumns(q, blanks, Some(s), names, {}, ignoreExtra).Ok? {
      var order := HeaderColumns(q, blanks, Some(s), names, {}, ignoreExtra).value;
      HeaderColumnsMeaning(q, blanks, s, names, {}, ignoreExtra);
      ColumnsMeaning(q, s, 0);
      MissingExactly(order, names, CleanAll(q, blanks, ClosedCells(q, s)));
    }
  }

  lemma NothingFound(names: seq<string>)
    ensures FoundIn({}, [], names)
  {
    forall c | c in names
      ensures IndexOf(names, c).Some?
    {
      IndexOfName(names, c);
    }
  }

  lemma MissingExactly(order: seq<int>, names: seq<string>, cells: seq<string>)
    requires Placed(order, cells, names, {}) && Distinct(names)
    ensures (exists i :: 0 <= i < |names| && i !in order) <==> exists name :: name in names && name !in cells
  {
    forall i | 0 <= i < |names|
      ensures i in order <==> names[i] in cells
    {
      if i in order {
        var j := PositionOf(order, i);
        assert cells[j] == names[i];
      }
      if names[i] in cells {
        var j :| 0 <= j < |cells| && cells[j] == names[i];
        assert order[j] != -1;
        assert names[order[j]] == names[i];
        assert order[j] == i;
      }
    }
    if exists i :: 0 <= i < |names| && i !in order {
      var i :| 0 <= i < |names| && i !in order;
      assert names[i] in names && names[i] !in cells;
    }
  }

  lemma PositionOf(order: seq<int>, i: int) returns (j: nat)
    requires i in order
    ensures j < |order| && order[j] == i
  {
    j :| j < |order| && order[j] == i;
  }

  lemma PlacedPermutes(order: seq<int>, names: seq<string>, cells: seq<string>)
    requires Placed(order, cells, names, {}) && -1 !in order
    requires forall i :: 0 <= i < |names| ==> i in order
    ensures Permutes(order, names, cells) && Distinct(names) && Distinct(cells)
    ensures forall c :: c in cells <==> c in names
  {
    forall j | 0 <= j < |order|
      ensures FirstIndex(names, order[j], cells[j])
    {
      assert order[j] in order;
    }
    forall i, k | 0 <= i < k < |names|
      ensures names[i] != names[k]
    {
      var j := PositionOf(order, k);
    }
    CoversAll(order, |names|);
    forall c
      ensures c in cells <==> c in names
    {
      if c in names {
        var i :| 0 <= i < |names| && names[i] == c;
        var j := PositionOf(order, i);
        assert cells[j] == c;
      }
    }
  }

  lemma MissingName(order: seq<int>, names: seq<string>, cells: seq<string>)
    requires Placed(order, cells, names, {}) && -1 !in order
    requires exists i :: 0 <= i < |names| && i !in order
    ensures !(Distinct(names) && forall c :: c in cells <==> c in names)
  {
    var i :| 0 <= i < |names| && i !in order;
    assert names[i] in names;
    forall j | 0 <= j < |order|
      ensures FirstIndex(names, order[j], cells[j]) && order[j] != i
    {
      assert order[j] in order;
    }
  }

  /** Distinct numbers below `n` that cover all of them are `n` numbers. */
  lemma {:induction false} CoversAll(order: seq<int>, n: nat)
    requires forall i, j :: 0 <= i < j < |order| ==> order[i] != order[j]
    requires forall j :: 0 <= j < |order| ==> 0 <= order[j] < n
    requires forall i :: 0 <= i < n ==> i in order
    ensures |order| == n
  {
    assert order == [] || 0 <= order[0] < n;
    if n > 0 {
      assert n - 1 in order;
      var j := PositionOf(order, n - 1);
      var rest := order[..j] + order[j + 1..];
      forall i | 0 <= i < n - 1
        ensures i in rest
      {
        var k := PositionOf(order, i);
        assert rest[if k < j then k else k - 1] == i;
      }
      CoversAll(rest, n - 1);
    }
  }
}
