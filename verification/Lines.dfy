/**
  What the line reader of src/include/io/csv.hpp is meant to deliver: the input cut at every
  newline, with no line as long as a block. Nothing here knows about blocks being slid or refilled.
 */
module Lines {

  /** The length of the first line: the number of characters before the first newline, or all of them. */
  function LineLength(s: string): (n: nat)
    ensures n <= |s| && forall i :: 0 <= i < n ==> s[i] != '\n'
    ensures n < |s| ==> s[n] == '\n'
  {
    if s == "" || s[0] == '\n' then 0 else 1 + LineLength(s[1..])
  }

  function FirstLine(s: string): string {
    s[..LineLength(s)]
  }

  /** What follows the first line and its newline; a missing newline at the end is tolerated. */
  function AfterLine(s: string): string {
    if LineLength(s) < |s| then s[LineLength(s) + 1..] else ""
  }

  /** A carriage return before the newline belongs to the newline. */
  function StripCR(line: string): string {
    if line != "" && line[|line| - 1] == '\r' then line[..|line| - 1] else line
  }

  lemma FirstLineAt(s: string)
    ensures |FirstLine(s)| == LineLength(s) && forall i :: 0 <= i < LineLength(s) ==> FirstLine(s)[i] == s[i]
    ensures |AfterLine(s)| == if LineLength(s) < |s| then |s| - LineLength(s) - 1 else 0
    ensures forall i :: 0 <= i < |AfterLine(s)| ==> AfterLine(s)[i] == s[i + LineLength(s) + 1]
  {}

  function RawLines(s: string): seq<string>
    decreases |s|
  {
    if s == "" then [] else [FirstLine(s)] + RawLines(AfterLine(s))
  }

  datatype Reading = Reading(lines: seq<string>, tooLong: bool)

  /** The lines handed out before the end of the input or before the first line of `limit` characters or more. */
  function ReadLines(s: string, limit: nat): Reading
    decreases |s|
  {
    if s == "" then Reading([], false)
    else if LineLength(s) >= limit then Reading([], true)
    else
      var rest := ReadLines(AfterLine(s), limit);
      Reading([StripCR(FirstLine(s))] + rest.lines, rest.tooLong)
  }

  function Prepend(lines: seq<string>, r: Reading): Reading {
    Reading(lines + r.lines, r.tooLong)
  }

  lemma PrependNothing(lines: seq<string>, tooLong: bool)
    ensures Prepend(lines, Reading([], tooLong)) == Reading(lines, tooLong)
  {
    assert lines + [] == lines;
  }

  lemma PrependMore(lines: seq<string>, line: string, r: Reading)
    ensures Prepend(lines, Prepend([line], r)) == Prepend(lines + [line], r)
    ensures Prepend([], r) == r
  {}

  lemma ReadLinesStep(s: string, limit: nat)
    ensures s == "" ==> ReadLines(s, limit) == Reading([], false)
    ensures s != "" && LineLength(s) >= limit ==> ReadLines(s, limit) == Reading([], true)
    ensures s != "" && LineLength(s) < limit ==>
      && ReadLines(s, limit) == Prepend([StripCR(FirstLine(s))], ReadLines(AfterLine(s), limit))
      && |AfterLine(s)| < |s|
  {}

  /** A byte order mark in front of the text is skipped. */
  function Content(input: string): string {
    if |input| >= 3 && input[0] == '\U{EF}' && input[1] == '\U{BB}' && input[2] == '\U{BF}' then input[3..] else input
  }

  // ----- properties of the specification -----

  function Unlines(lines: seq<string>): string {
    if lines == [] then "" else lines[0] + "\n" + Unlines(lines[1..])
  }

  lemma LineLengthIs(s: string, n: nat)
    requires n <= |s| && forall i :: 0 <= i < n ==> s[i] != '\n'
    requires n < |s| ==> s[n] == '\n'
    ensures LineLength(s) == n
  {}

  lemma LineLengthAtLeast(s: string, n: nat)
    requires n <= |s| && forall i :: 0 <= i < n ==> s[i] != '\n'
    ensures LineLength(s) >= n
  {}

  /** Cutting text made of lines gives back the lines. */
  lemma {:induction false} CutUnlines(lines: seq<string>)
    requires forall k :: 0 <= k < |lines| ==> '\n' !in lines[k]
    ensures RawLines(Unlines(lines)) == lines
  {
    if lines != [] {
      var s := Unlines(lines);
      assert s[..|lines[0]|] == lines[0];
      LineLengthIs(s, |lines[0]|);
      assert AfterLine(s) == Unlines(lines[1..]);
      CutUnlines(lines[1..]);
    }
  }

  lemma {:induction false} NoNewlineInLines(s: string)
    ensures forall k :: 0 <= k < |RawLines(s)| ==> '\n' !in RawLines(s)[k]
    decreases |s|
  {
    if s != "" {
      NoNewlineInLines(AfterLine(s));
    }
  }

  /** The text with its last line ended. */
  function Ended(s: string): string {
    if s == "" || s[|s| - 1] == '\n' then s else s + "\n"
  }

  lemma EndedStep(s: string)
    requires s != ""
    ensures Ended(s) == FirstLine(s) + "\n" + Ended(AfterLine(s))
  {
    hide LineLength;
    var n := LineLength(s);
    if n == |s| {
      assert s[..n] == s;
      assert s[|s| - 1] != '\n';
    } else {
      assert s == s[..n] + "\n" + s[n + 1..];
    }
  }

  /** No character is lost, repeated or moved: joining the lines gives the input, up to a final newline. */
  lemma {:induction false} UnlinesCut(s: string)
    ensures Unlines(RawLines(s)) == Ended(s)
    decreases |s|
  {
    if s != "" {
      UnlinesCut(AfterLine(s));
      assert RawLines(s)[0] == FirstLine(s) && RawLines(s)[1..] == RawLines(AfterLine(s));
      EndedStep(s);
    }
  }

  /** The reading of some lines: all of them, or those before the first one of `limit` characters. */
  predicate Reads(r: Reading, raw: seq<string>, limit: nat) {
    && |r.lines| <= |raw|
    && (forall k :: 0 <= k < |r.lines| ==> r.lines[k] == StripCR(raw[k]) && |raw[k]| < limit)
    && r.tooLong == (|r.lines| < |raw|)
    && (r.tooLong ==> |raw[|r.lines|]| >= limit)
  }

  /** The limit stops the reading exactly at the first line that reaches it. */
  lemma {:induction false} ReadLinesMeaning(s: string, limit: nat)
    ensures Reads(ReadLines(s, limit), RawLines(s), limit)
    decreases |s|
  {
    hide LineLength, StripCR, AfterLine;
    ReadLinesStep(s, limit);
    if s != "" && LineLength(s) < limit {
      ReadLinesMeaning(AfterLine(s), limit);
    }
  }

  // ----- line ends -----

  /** Lines end with a newline, or with a carriage return and a newline. */
  predicate IsLineEnd(lineEnd: string) {
    lineEnd == "\n" || lineEnd == "\r\n"
  }

  /** What can be written before a line end: no newline, and no carriage return that would be taken for a part of the end. */
  predicate Writable(line: string, lineEnd: string) {
    '\n' !in line && (lineEnd == "\n" ==> line == "" || line[|line| - 1] != '\r')
  }

  /** The line in front of a line end is read, without its end, and reading goes on behind it. */
  lemma LineInFront(line: string, lineEnd: string, rest: string, limit: nat)
    requires IsLineEnd(lineEnd) && Writable(line, lineEnd) && |line| + |lineEnd| <= limit
    ensures var s := line + (lineEnd + rest);
      && LineLength(s) == |line| + |lineEnd| - 1 && StripCR(FirstLine(s)) == line && AfterLine(s) == rest
      && ReadLines(s, limit) == Prepend([line], ReadLines(rest, limit))
  {
    var s := line + (lineEnd + rest);
    var raw := line + lineEnd[..|lineEnd| - 1];
    assert s == raw + ("\n" + rest);
    hide LineLength;
    RawLineInFront(raw, rest);
    ReadLinesStep(s, limit);
  }

  lemma RawLineInFront(raw: string, rest: string)
    requires '\n' !in raw
    ensures var s := raw + ("\n" + rest);
      s != "" && LineLength(s) == |raw| && FirstLine(s) == raw && AfterLine(s) == rest
  {
    var s := raw + ("\n" + rest);
    assert forall i :: 0 <= i < |raw| ==> s[i] == raw[i];
    LineLengthIs(s, |raw|);
    hide LineLength;
    assert s[..|raw|] == raw && s[|raw| + 1..] == rest;
  }

  /** The end of the last line may be missing, and even then its carriage return is taken off. */
  lemma LastLine(line: string, limit: nat)
    requires '\n' !in line && line != "" && |line| < limit
    ensures line[|line| - 1] != '\r' ==> ReadLines(line, limit) == Reading([line], false)
    ensures |line| + 1 < limit ==> ReadLines(line + "\r", limit) == Reading([line], false)
  {
    LineLengthIs(line, |line|);
    LineLengthIs(line + "\r", |line + "\r"|);
    assert line[..|line|] == line && (line + "\r")[..|line + "\r"|] == line + "\r";
    hide LineLength;
    ReadLinesStep(line, limit);
    ReadLinesStep(line + "\r", limit);
    ReadLinesStep("", limit);
  }

  function Written(lines: seq<string>, lineEnd: string): string {
    if lines == [] then "" else lines[0] + (lineEnd + Written(lines[1..], lineEnd))
  }

  /** Text written line by line, with either line end, is read back line by line. */
  lemma {:induction false} ReadWritten(lines: seq<string>, lineEnd: string, limit: nat)
    requires IsLineEnd(lineEnd) && forall k :: 0 <= k < |lines| ==> Writable(lines[k], lineEnd) && |lines[k]| + |lineEnd| <= limit
    ensures ReadLines(Written(lines, lineEnd), limit) == Reading(lines, false)
  {
    hide LineLength, Writable, IsLineEnd, ReadLines;
    if lines == [] {
      ReadLinesStep("", limit);
    } else {
      LineInFront(lines[0], lineEnd, Written(lines[1..], lineEnd), limit);
      ReadWritten(lines[1..], lineEnd, limit);
    }
  }

  const BYTE_ORDER_MARK := "\U{EF}\U{BB}\U{BF}"

  /** Exactly a byte order mark in front is taken off, and only one. */
  lemma ContentMeaning(s: string)
    ensures Content("\U{EF}\U{BB}\U{BF}" + s) == s
    ensures !(BYTE_ORDER_MARK <= s) ==> Content(s) == s
  {}
}
