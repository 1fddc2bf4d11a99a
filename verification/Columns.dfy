/**
  How src/include/io/csv.hpp takes a line apart: column by column, inside the buffer the line
  stands in, with pointers into it as the result.
 */
module ColumnParsing {
  import opened Basics
  import opened CStrings
  import opened ColumnText

  method FindNextColumnEnd(q: Quoting, buffer: array<char>, colBegin: nat, ghost text: string) returns (colEnd: Option<nat>)
    requires QuotingOk(q) && CString(buffer[..], colBegin, text)
    ensures colEnd == Later(colBegin, ColumnEnd(q, text, false))
  {
    hide ColumnEnd;
    var i := colBegin;
    ghost var n := 0;
    assert text[0..] == text;
    while buffer[i] != q.sep && buffer[i] != '\0'
      invariant i == colBegin + n && n <= |text|
      invariant ColumnEnd(q, text, false) == Later(n, ColumnEnd(q, text[n..], false))
      decreases |text| - n
    {
      ColumnEndStep(q, text, n, false);
      n := n + 1;
      if !IsQuote(q, buffer[i]) {
        i := i + 1;
      } else {
        var closed;
        i, n, closed := SkipQuoted(q, buffer, colBegin, i + 1, text, n);
        if !closed {
          return None;
        }
      }
    }
    ColumnEndStops(q, text, n);
    colEnd := Some(i);
  }

  /** Goes from behind an opening quote to behind the quote that closes it. */
  method SkipQuoted(q: Quoting, buffer: array<char>, colBegin: nat, start: nat, ghost text: string, ghost from: nat)
    returns (i: nat, ghost n: nat, closed: bool)
    requires QuotingOk(q) && q.DoubleQuotes? && CString(buffer[..], colBegin, text)
    requires start == colBegin + from && from <= |text|
    ensures from <= n <= |text| && i == colBegin + n
    ensures closed ==> Later(from, ColumnEnd(q, text[from..], true)) == Later(n, ColumnEnd(q, text[n..], false))
    ensures !closed ==> ColumnEnd(q, text[from..], true) == None
  {
    hide ColumnEnd;
    i, n := start, from;
    while true
      invariant from <= n <= |text| && i == colBegin + n
      invariant Later(from, ColumnEnd(q, text[from..], true)) == Later(n, ColumnEnd(q, text[n..], true))
      decreases |text| - n
    {
      while buffer[i] != q.quote
        invariant from <= n <= |text| && i == colBegin + n
        invariant Later(from, ColumnEnd(q, text[from..], true)) == Later(n, ColumnEnd(q, text[n..], true))
        decreases |text| - n
      {
        if buffer[i] == '\0' {
          ColumnEndStops(q, text, n);
          return i, n, false;
        }
        ColumnEndStep(q, text, n, true);
        i, n := i + 1, n + 1;
      }
      ColumnEndStep(q, text, n, true);
      i, n := i + 1, n + 1;
      if buffer[i] != q.quote {
        return i, n, true;
      }
      ColumnEndStep(q, text, n, false);
      i, n := i + 1, n + 1;
    }
  }

  method Trim(blanks: set<char>, buffer: array<char>, strBegin: nat, strEnd: nat, ghost text: string) returns (b: nat, e: nat)
    requires CString(buffer[..], strBegin, text) && strEnd == strBegin + |text|
    modifies buffer
    ensures strBegin <= b <= e <= strEnd && e - b == |Trimmed(blanks, text)|
    ensures CString(buffer[..], b, Trimmed(blanks, text))
    ensures forall i :: 0 <= i < buffer.Length && !(strBegin <= i <= strEnd) ==> buffer[i] == old(buffer[i])
  {
    b, e := SkipBlanks(blanks, buffer, strBegin, strEnd, text);
    ghost var before := buffer[..];
    buffer[e] := '\0';
    PartStands(before, strBegin, text, b - strBegin, e - strBegin, buffer[..]);
  }

  method SkipBlanks(blanks: set<char>, buffer: array<char>, strBegin: nat, strEnd: nat, ghost text: string) returns (b: nat, e: nat)
    requires CString(buffer[..], strBegin, text) && strEnd == strBegin + |text|
    ensures strBegin <= b <= e <= strEnd && text[b - strBegin..e - strBegin] == Trimmed(blanks, text)
  {
    hide TrimLeft, TrimRight;
    b, e := strBegin, strEnd;
    assert text[0..] == text;
    while b != e && buffer[b] in blanks
      invariant strBegin <= b <= e
      invariant TrimLeft(blanks, text) == TrimLeft(blanks, text[b - strBegin..])
    {
      TrimLeftStep(blanks, text, b - strBegin);
      b := b + 1;
    }
    ghost var from := b - strBegin;
    TrimLeftStep(blanks, text, from);
    assert text[from..|text|] == text[from..];
    while b != e && buffer[e - 1] in blanks
      invariant b <= e <= strEnd
      invariant Trimmed(blanks, text) == TrimRight(blanks, text[from..e - strBegin])
    {
      TrimRightStep(blanks, text, from, e - strBegin);
      e := e - 1;
    }
    TrimRightStep(blanks, text, from, e - strBegin);
  }

  method Unescape(q: Quoting, buffer: array<char>, colBegin: nat, colEnd: nat, ghost text: string) returns (b: nat, e: nat)
    requires QuotingOk(q) && CString(buffer[..], colBegin, text) && colEnd == colBegin + |text|
    modifies buffer
    ensures colBegin <= b <= e <= colEnd && e - b == |Unescaped(q, text)|
    ensures CString(buffer[..], b, Unescaped(q, text))
    ensures forall i :: 0 <= i < buffer.Length && !(colBegin <= i <= colEnd) ==> buffer[i] == old(buffer[i])
  {
    b, e := colBegin, colEnd;
    if q.DoubleQuotes? && e - b >= 2 && buffer[b] == q.quote && buffer[e - 1] == q.quote {
      b, e := b + 1, e - 1;
      e := CollapseInPlace(q.quote, buffer, b, e, text[1..|text| - 1]);
    }
  }

  /** Copies a text onto itself without the doubled quotes; the write position never overtakes the read position. */
  method CollapseInPlace(quote: char, buffer: array<char>, begin: nat, end: nat, ghost text: string) returns (e: nat)
    requires quote != '\0' && begin + |text| == end < buffer.Length && NoNul(text)
    requires forall i :: begin <= i < end ==> buffer[i] == text[i - begin]
    modifies buffer
    ensures begin <= e <= end && e - begin == |Collapse(quote, text)|
    ensures CString(buffer[..], begin, Collapse(quote, text))
    ensures forall i :: 0 <= i < buffer.Length && !(begin <= i <= end) ==> buffer[i] == old(buffer[i])
  {
    hide Collapse, NoNul;
    CollapseNoNul(quote, text);
    var input, output := begin, begin;
    ghost var done := "";
    assert text[0..] == text;
    while input != end
      invariant begin <= output <= input <= end && |done| == output - begin
      invariant Collapse(quote, text) == done + Collapse(quote, text[input - begin..])
      invariant forall i :: begin <= i < output ==> buffer[i] == done[i - begin]
      invariant forall i :: input <= i < end ==> buffer[i] == text[i - begin]
      invariant forall i :: 0 <= i < buffer.Length && !(begin <= i <= end) ==> buffer[i] == old(buffer[i])
      decreases end - input
    {
      ghost var rest := Collapse(quote, text[input - begin..]);
      input := CopyCharacter(quote, buffer, begin, end, input, output, text);
      assert done + rest == (done + [buffer[output]]) + rest[1..];
      done := done + [buffer[output]];
      output := output + 1;
    }
    CollapseStep(quote, text, |text|);
    e := output;
    buffer[e] := '\0';
  }

  /** Copies one character, or one of two quotes in a row. */
  method CopyCharacter(quote: char, buffer: array<char>, begin: nat, end: nat, input: nat, output: nat, ghost text: string)
    returns (next: nat)
    requires begin <= output <= input < end == begin + |text| < buffer.Length
    requires forall i :: input <= i < end ==> buffer[i] == text[i - begin]
    modifies buffer
    ensures input < next <= end
    ensures Collapse(quote, text[input - begin..]) == [buffer[output]] + Collapse(quote, text[next - begin..])
    ensures forall i :: 0 <= i < buffer.Length && i != output ==> buffer[i] == old(buffer[i])
  {
    hide Collapse;
    CollapseStep(quote, text, input - begin);
    next := input;
    if buffer[next] == quote && next + 1 != end && buffer[next + 1] == quote {
      next := next + 1;
    }
    buffer[output] := buffer[next];
    next := next + 1;
  }

  /** Cuts the first column off a line; the line goes on behind the separator, or is over. */
  method ChopNextColumn(q: Quoting, buffer: array<char>, line: nat, ghost text: string)
    returns (colEnd: Option<nat>, rest: Option<nat>)
    requires QuotingOk(q) && CString(buffer[..], line, text)
    modifies buffer
    ensures colEnd.None? <==> ColumnEnd(q, text, false).None?
    ensures colEnd.None? ==> buffer[..] == old(buffer[..])
    ensures colEnd.Some? ==> var n := ColumnEnd(q, text, false).value;
      && colEnd.value == line + n && CString(buffer[..], line, text[..n])
      && (if n == |text| then rest == None else rest == Some(line + n + 1) && CString(buffer[..], line + n + 1, text[n + 1..]))
    ensures forall i :: 0 <= i < buffer.Length && !(line <= i <= line + |text|) ==> buffer[i] == old(buffer[i])
  {
    hide ColumnEnd;
    colEnd := FindNextColumnEnd(q, buffer, line, text);
    rest := None;
    if colEnd.None? {
      return;
    }
    ghost var n := colEnd.value - line;
    if buffer[colEnd.value] != '\0' {
      buffer[colEnd.value] := '\0';
      rest := Some(colEnd.value + 1);
    }
    assert text[..|text|] == text;
  }

  /** A pointer to a text that ends before `limit`. */
  ghost predicate Holds(buffer: seq<char>, p: Option<nat>, text: string, limit: nat) {
    p.Some? && CString(buffer, p.value, text) && p.value + |text| < limit
  }

  /** Chops, trims and unquotes the first column of a line. */
  method TakeColumn(q: Quoting, blanks: set<char>, buffer: array<char>, line: nat, ignored: bool, ghost text: string)
    returns (col: Option<nat>, rest: Option<nat>, closed: bool)
    requires QuotingOk(q) && CString(buffer[..], line, text)
    modifies buffer
    ensures closed == ColumnEnd(q, text, false).Some?
    ensures closed ==> var n := ColumnEnd(q, text, false).value;
      && (rest.Some? <==> n < |text|)
      && (n < |text| ==> rest == Some(line + n + 1) && CString(buffer[..], line + n + 1, text[n + 1..]))
      && (!ignored ==> Holds(buffer[..], col, Clean(q, blanks, text[..n]), line + n + 1))
    ensures forall i :: 0 <= i < buffer.Length && !(line <= i <= line + |text|) ==> buffer[i] == old(buffer[i])
  {
    hide ColumnEnd, TrimLeft, TrimRight, Collapse;
    var colEnd;
    colEnd, rest := ChopNextColumn(q, buffer, line, text);
    closed := colEnd.Some?;
    col := None;
    if closed && !ignored {
      ghost var cell := text[..colEnd.value - line];
      var b, e := Trim(blanks, buffer, line, colEnd.value, cell);
      b, e := Unescape(q, buffer, b, e, Trimmed(blanks, cell));
      col := Some(b);
    }
  }

  method ParseLine(q: Quoting, blanks: set<char>, buffer: array<char>, line: nat,
                   sortedCol: array<Option<nat>>, colOrder: seq<int>, ghost text: string)
    returns (error: Option<ColumnError>)
    requires QuotingOk(q) && CString(buffer[..], line, text)
    requires forall j :: 0 <= j < |colOrder| ==> -1 <= colOrder[j] < sortedCol.Length
    requires forall i, j :: 0 <= i < j < |colOrder| && colOrder[i] == colOrder[j] ==> colOrder[i] == -1
    modifies buffer, sortedCol
    ensures match Columns(q, Some(text), |colOrder|)
      case Err(e) => error == Some(e)
      case Ok(cells) => error == None && |cells| == |colOrder| && Sorted(q, blanks, buffer[..], sortedCol[..], colOrder, cells, line + |text| + 1)
    ensures forall i :: 0 <= i < buffer.Length && !(line <= i <= line + |text|) ==> buffer[i] == old(buffer[i])
  {
    hide Columns, ColumnEnd, Clean, Sorted, Holds;
    EmptySorted(q, blanks, buffer[..], sortedCol[..], line);
    var current: Option<nat> := Some(line);
    ghost var rest: Option<string> := Some(text);
    ghost var cells: seq<string> := [];
    PrependNothing(Columns(q, Some(text), |colOrder|));
    for j := 0 to |colOrder|
      invariant Columns(q, Some(text), |colOrder|) == PrependCells(cells, Columns(q, rest, |colOrder| - j))
      invariant Remains(buffer[..], current, rest, line + |text|)
      invariant |cells| == j && (current.Some? ==> line <= current.value)
      invariant Sorted(q, blanks, buffer[..], sortedCol[..], colOrder[..j], cells, if current.Some? then current.value else line + |text| + 1)
      invariant forall i :: 0 <= i < buffer.Length && !(line <= i <= line + |text|) ==> buffer[i] == old(buffer[i])
    {
      if current.None? {
        ColumnsOver(q, rest, |colOrder| - j);
        return Some(TooFewColumns);
      }
      ColumnsStep(q, cells, rest.value, |colOrder| - j);
      var i := colOrder[j];
      ghost var before, sortedBefore, limit := buffer[..], sortedCol[..], current.value;
      var col, next, closed := TakeColumn(q, blanks, buffer, current.value, i == -1, rest.value);
      if !closed {
        return Some(NotClosed);
      }
      if i != -1 {
        sortedCol[i] := col;
      }
      ghost var n := ColumnEnd(q, rest.value, false).value;
      assert colOrder[..j + 1] == colOrder[..j] + [i];
      KeepSorted(q, blanks, before, sortedBefore, colOrder[..j], cells, limit, buffer[..], i, col, rest.value[..n], limit + n + 1);
      cells := cells + [rest.value[..n]];
      rest := Following(rest.value, n);
      current := next;
    }
    ColumnsOver(q, rest, 0);
    assert colOrder[..|colOrder|] == colOrder;
    assert cells + [] == cells;
    error := if current.Some? then Some(TooManyColumns) else None;
  }

  lemma EmptySorted(q: Quoting, blanks: set<char>, buffer: seq<char>, sortedCol: seq<Option<nat>>, limit: nat)
    ensures Sorted(q, blanks, buffer, sortedCol, [], [], limit)
  {}

  /** The rest of the line, if there is one. */
  ghost predicate Remains(buffer: seq<char>, current: Option<nat>, rest: Option<string>, end: nat) {
    && (current.Some? <==> rest.Some?)
    && (current.Some? ==> CString(buffer, current.value, rest.value) && current.value + |rest.value| == end)
  }

  /** Each column that is not ignored can be found where the order puts it. */
  ghost predicate Sorted(q: Quoting, blanks: set<char>, buffer: seq<char>, sortedCol: seq<Option<nat>>,
                         colOrder: seq<int>, cells: seq<string>, limit: nat)
  {
    && |colOrder| <= |cells|
    && forall j :: 0 <= j < |colOrder| && colOrder[j] != -1 ==>
      0 <= colOrder[j] < |sortedCol| && Holds(buffer, sortedCol[colOrder[j]], Clean(q, blanks, cells[j]), limit)
  }

  /** Work behind the limit does not disturb the columns in front of it, and one more column joins them. */
  lemma KeepSorted(q: Quoting, blanks: set<char>, before: seq<char>, sortedBefore: seq<Option<nat>>,
                   colOrder: seq<int>, cells: seq<string>, limit: nat,
                   after: seq<char>, i: int, col: Option<nat>, cell: string, newLimit: nat)
    requires Sorted(q, blanks, before, sortedBefore, colOrder, cells, limit) && limit <= newLimit && |cells| == |colOrder|
    requires |before| == |after| && forall k :: 0 <= k < limit && k < |before| ==> after[k] == before[k]
    requires -1 <= i < |sortedBefore| && (i != -1 ==> i !in colOrder && Holds(after, col, Clean(q, blanks, cell), newLimit))
    ensures Sorted(q, blanks, after, if i == -1 then sortedBefore else sortedBefore[i := col],
                   colOrder + [i], cells + [cell], newLimit)
  {
    hide Clean;
  }

  method ReadCString(buffer: array<char>, start: nat, ghost text: string) returns (s: string)
    requires CString(buffer[..], start, text)
    ensures s == text
  {
    s := "";
    while buffer[start + |s|] != '\0'
      invariant |s| <= |text| && s == text[..|s|]
      decreases |text| - |s|
    {
      s := s + [buffer[start + |s|]];
    }
  }

  /** Looks for the name of a column among the column names. */
  method FindName(names: seq<string>, cell: string) returns (i: nat)
    ensures i <= |names| && (IndexOf(names, cell) == if i < |names| then Some(i) else None)
  {
    hide IndexOf;
    i := 0;
    while i < |names| && cell != names[i]
      invariant i <= |names| && forall k :: 0 <= k < i ==> names[k] != cell
    {
      i := i + 1;
    }
    if i < |names| {
      IndexOfIs(names, i, cell);
    }
  }

  method ParseHeaderLine(q: Quoting, blanks: set<char>, buffer: array<char>, line: nat, colNames: seq<string>,
                         ignoreExtra: bool, ignoreMissing: bool, ghost text: string)
    returns (r: Result<seq<int>, ColumnError>)
    requires QuotingOk(q) && CString(buffer[..], line, text)
    modifies buffer
    ensures r == Header(q, blanks, text, colNames, ignoreExtra, ignoreMissing)
  {
    hide HeaderColumns, ColumnEnd, Clean, IndexOf;
    var colOrder: seq<int> := [];
    var found := new bool[|colNames|](_ => false);
    var current: Option<nat> := Some(line);
    ghost var rest: Option<string> := Some(text);
    ghost var foundSet: set<nat> := {};
    ghost var columns := HeaderColumns(q, blanks, Some(text), colNames, {}, ignoreExtra);
    PrependNoColumns(columns);
    while current.Some?
      invariant columns == PrependColumns(colOrder, HeaderColumns(q, blanks, rest, colNames, foundSet, ignoreExtra))
      invariant current.Some? <==> rest.Some?
      invariant current.Some? ==> CString(buffer[..], current.value, rest.value)
      invariant forall i: nat :: i in foundSet <==> i < |colNames| && found[i]
      invariant forall i: nat :: i < |colNames| ==> (found[i] <==> i in colOrder)
      decreases if rest.None? then 0 else |rest.value| + 1
    {
      HeaderStep(q, blanks, colOrder, rest.value, colNames, foundSet, ignoreExtra);
      var col, next, closed := TakeColumn(q, blanks, buffer, current.value, false, rest.value);
      if !closed {
        return Err(NotClosed);
      }
      ghost var n := ColumnEnd(q, rest.value, false).value;
      var cell := ReadCString(buffer, col.value, Clean(q, blanks, rest.value[..n]));
      var i := FindName(colNames, cell);
      if i < |colNames| {
        if found[i] {
          return Err(Duplicated);
        }
        found[i] := true;
        foundSet := foundSet + {i};
        colOrder := colOrder + [i];
      } else if ignoreExtra {
        colOrder := colOrder + [-1];
      } else {
        return Err(ExtraColumn);
      }
      rest := Following(rest.value, n);
      current := next;
    }
    HeaderOver(q, blanks, colNames, foundSet, ignoreExtra);
    assert colOrder + [] == colOrder;
    if !ignoreMissing {
      for i := 0 to |colNames|
        invariant forall k: nat :: k < i ==> found[k]
      {
        if !found[i] {
          return Err(MissingColumn);
        }
      }
    }
    r := Ok(colOrder);
  }

  /**
    After a header that was accepted, every column name finds its own cell in each row: the cell
    that stands in the row where the name stands in the header.
   */
  lemma RowUnderHeader(q: Quoting, blanks: set<char>, buffer: seq<char>, sortedCol: seq<Option<nat>>, order: seq<int>,
                       names: seq<string>, header: seq<string>, cells: seq<string>, limit: nat, i: nat)
    requires Permutes(order, names, header) && Sorted(q, blanks, buffer, sortedCol, order, cells, limit) && i < |names|
    ensures i < |sortedCol|
    ensures exists j: nat :: j < |header| && j < |cells| && header[j] == names[i] && Holds(buffer, sortedCol[i], Clean(q, blanks, cells[j]), limit)
  {
    hide Clean, Holds;
    assert i in order;
    var j := PositionOf(order, i);
    assert header[j] == names[i] && Holds(buffer, sortedCol[i], Clean(q, blanks, cells[j]), limit);
  }
}
