/**
  The buffered line reader of src/include/io/csv.hpp: a window of two blocks that lines are cut
  from in place, and a third block that a reader fills ahead of time.
 */
module LineReading {
  import opened Basics
  import opened CStrings
  import opened Lines
  import Prefetch

  /**
    Reads from a byte source, given by the text it has not delivered yet. A source returns fewer
    bytes than asked for only at the end of the input.
   */
  method ReadBytes(source: string, buffer: array<char>, at: nat, desired: nat) returns (count: nat, rest: string)
    requires at + desired <= buffer.Length
    modifies buffer
    ensures count == Min(desired, |source|) && rest == source[count..]
    ensures forall i :: at <= i < at + count ==> buffer[i] == source[i - at]
    ensures forall i :: 0 <= i < buffer.Length && !(at <= i < at + count) ==> buffer[i] == old(buffer[i])
  {
    count := Min(desired, |source|);
    forall i | 0 <= i < count {
      buffer[at + i] := source[i];
    }
    rest := source[count..];
  }

  /**
    The reader without threads. Its answers are the ones that the threaded reader gives in every
    interleaving (Prefetch.AnswersLikeSynchronous), as long as the protocol in these preconditions
    is kept: one request at a time, and no result is waited for after a result of 0.
   */
  class BlockReader {
    var valid: bool
    var unread: string
    var at: nat
    var desired: nat
    ghost var pending: bool
    ghost var sawZero: bool
    ghost var input: string
    ghost var requests: seq<nat>
    /** The part of the buffer that was lent to the pending read: until its result, nobody else may write there. */
    ghost var lent: seq<char>

    /** The requests so far have been served in their order. */
    ghost predicate InOrder()
      reads this
    {
      && (pending ==> requests != [] && requests[|requests| - 1] == desired)
      && unread == Prefetch.SyncRest(input, if pending then requests[..|requests| - 1] else requests)
    }

    /** The buffer still holds what was lent to the pending read. */
    ghost predicate Untouched(buffer: array<char>)
      reads this, buffer
    {
      at + desired <= buffer.Length && |lent| == desired && forall i :: at <= i < at + desired ==> buffer[i] == lent[i - at]
    }

    constructor ()
      ensures !valid && unread == "" && !pending && !sawZero && InOrder()
    {
      valid, unread := false, "";
      pending, sawZero := false, false;
      input, requests, lent := "", [], [];
    }

    method Init(source: string)
      requires !valid
      modifies this
      ensures valid && unread == input == source && requests == [] && !pending && !sawZero && InOrder()
    {
      valid, unread := true, source;
      pending, sawZero := false, false;
      input, requests, lent := source, [], [];
    }

    /** Lends a part of the buffer to a new request. From now on anything may stand there. */
    method StartRead(buffer: array<char>, position: nat, count: nat)
      requires valid && !pending && position + count <= buffer.Length && InOrder()
      modifies this`at, this`desired, this`pending, this`requests, this`lent, buffer
      ensures pending && at == position && desired == count && requests == old(requests) + [count] && InOrder()
      ensures lent == buffer[position..position + count] && Untouched(buffer)
      ensures forall i :: 0 <= i < buffer.Length && !(position <= i < position + count) ==> buffer[i] == old(buffer[i])
    {
      at, desired := position, count;
      pending := true;
      requests := requests + [count];
      Scribble(buffer, position, count);
      lent := buffer[position..position + count];
    }

    /** The worker may write into the lent part at any time. */
    method Scribble(buffer: array<char>, position: nat, count: nat)
      requires position + count <= buffer.Length
      modifies buffer
      ensures forall i :: 0 <= i < buffer.Length && !(position <= i < position + count) ==> buffer[i] == old(buffer[i])
    {
      for k := position to position + count
        invariant forall i :: 0 <= i < buffer.Length && !(position <= i < position + count) ==> buffer[i] == old(buffer[i])
      {
        buffer[k] := *;
      }
    }

    method FinishRead(buffer: array<char>) returns (count: nat)
      requires valid && pending && !sawZero && Untouched(buffer) && InOrder()
      modifies this`unread, this`pending, this`sawZero, buffer
      ensures !pending && sawZero == (count == 0) && InOrder()
      ensures count == |Prefetch.SyncChunk(input, requests)|
      ensures count == Min(desired, |old(unread)|) && unread == old(unread)[count..]
      ensures forall i :: at <= i < at + count ==> buffer[i] == old(unread)[i - at]
      ensures forall i :: 0 <= i < buffer.Length && !(at <= i < at + count) ==> buffer[i] == old(buffer[i])
    {
      count, unread := ReadBytes(unread, buffer, at, desired);
      pending, sawZero := false, count == 0;
    }
  }

  datatype NextLineResult = NoMoreLines | Line(start: nat, length: nat) | LineTooLong

  class LineReader {
    const blockLen: nat
    const buffer: array<char>
    const reader: BlockReader
    var dataBegin: nat
    var dataEnd: nat
    var fileLine: nat
    /** The text that is still to be cut into lines. */
    ghost var rest: string

    /** The window shows the beginning of the text, and `unread` is what follows. */
    ghost predicate Aligned(unread: string)
      reads this, buffer
    {
      && dataBegin <= dataEnd <= buffer.Length
      && |rest| == dataEnd - dataBegin + |unread|
      && (forall i :: dataBegin <= i < dataEnd ==> buffer[i] == rest[i - dataBegin])
      && (forall i :: dataEnd - dataBegin <= i < |rest| ==> rest[i] == unread[i - dataEnd + dataBegin])
    }

    /** Writing behind the window does not disturb it. */
    twostate lemma StaysAligned(unread: string)
      requires old(Aligned(unread)) && unchanged(this)
      requires forall i :: 0 <= i < dataEnd && i < buffer.Length ==> buffer[i] == old(buffer[i])
      ensures Aligned(unread)
    {}

    ghost predicate Valid()
      reads this, buffer, reader
    {
      && blockLen >= 4 && buffer.Length == 3 * blockLen
      && dataEnd <= 2 * blockLen
      && Aligned(reader.unread) && reader.InOrder()
      && (reader.valid ==>
            && reader.pending && reader.at == 2 * blockLen && reader.desired == blockLen
            && reader.Untouched(buffer))
      && (reader.unread != "" ==> reader.valid && dataBegin < dataEnd == 2 * blockLen && !reader.sawZero)
      && (reader.sawZero ==> dataEnd <= blockLen || dataBegin == dataEnd)
    }

    constructor (source: string, block: nat)
      requires block >= 4
      ensures Valid() && fresh(buffer) && fresh(reader)
      ensures rest == Content(source) && fileLine == 0 && blockLen == block
    {
      blockLen := block;
      fileLine := 0;
      buffer := new char[3 * block];
      reader := new BlockReader();
      dataBegin, dataEnd := 0, 0;
      rest := source;
      new;
      var unread;
      dataEnd, unread := ReadBytes(source, buffer, 0, 2 * blockLen);
      SkipByteOrderMark(unread);
      hide BlockReader.InOrder, BlockReader.Untouched, Aligned, Content;
      if dataEnd == 2 * blockLen {
        ReadAhead(unread);
      }
    }

    /** Hands the source over to the reader and asks for the third block. */
    method ReadAhead(unread: string)
      requires blockLen >= 4 && buffer.Length == 3 * blockLen && dataBegin < dataEnd == 2 * blockLen
      requires !reader.valid && Aligned(unread)
      modifies reader, buffer
      ensures Valid() && reader.pending
    {
      hide BlockReader.InOrder, BlockReader.Untouched, Aligned;
      reader.Init(unread);
      reader.StartRead(buffer, 2 * blockLen, blockLen);
      StaysAligned(unread);
    }

    method SkipByteOrderMark(ghost unread: string)
      requires dataBegin == 0 && Aligned(unread) && (unread != "" ==> dataEnd >= 3)
      modifies this`dataBegin, this`rest
      ensures Aligned(unread) && rest == Content(old(rest)) && dataBegin <= 3
    {
      if dataEnd >= 3 && buffer[0] == '\U{EF}' && buffer[1] == '\U{BB}' && buffer[2] == '\U{BF}' {
        dataBegin := 3;
        rest := rest[3..];
      }
    }

    method CopyBlock(from: nat, to: nat)
      requires buffer.Length == 3 * blockLen && to + blockLen <= from && from + blockLen <= 3 * blockLen
      requires reader.pending ==> from + blockLen <= 2 * blockLen  // the third block belongs to the reader
      modifies buffer
      ensures forall i :: to <= i < to + blockLen ==> buffer[i] == old(buffer[i - to + from])
      ensures forall i :: 0 <= i < buffer.Length && !(to <= i < to + blockLen) ==> buffer[i] == old(buffer[i])
    {
      forall i | 0 <= i < blockLen {
        buffer[to + i] := buffer[from + i];
      }
    }

    /** Slides the window one block down and lets the reader's block in. */
    method SlideWindow()
      requires Valid() && blockLen <= dataBegin < dataEnd
      modifies this`dataBegin, this`dataEnd, buffer, reader
      ensures Valid()
      ensures dataBegin == old(dataBegin) - blockLen && dataBegin < dataEnd
    {
      CopyBlock(blockLen, 0);
      dataBegin := dataBegin - blockLen;
      dataEnd := dataEnd - blockLen;
      if reader.valid {
        Refill();
      }
    }

    method Refill()
      requires blockLen >= 4 && buffer.Length == 3 * blockLen && dataBegin < dataEnd <= blockLen
      requires Aligned(reader.unread)
      requires reader.InOrder() && reader.valid && reader.pending && reader.at == 2 * blockLen && reader.desired == blockLen
      requires reader.Untouched(buffer)
      requires !reader.sawZero && (reader.unread != "" ==> dataEnd == blockLen)
      modifies this`dataEnd, buffer, reader
      ensures Valid() && dataBegin < dataEnd
    {
      hide BlockReader.InOrder, Aligned;
      TakeBlock();
      label Taken:
      reader.StartRead(buffer, 2 * blockLen, blockLen);
      StaysAligned@Taken(reader.unread);
    }

    /** Waits for the block that was read ahead and lets it in behind the window. */
    method TakeBlock()
      requires blockLen >= 4 && buffer.Length == 3 * blockLen && dataBegin < dataEnd <= blockLen
      requires Aligned(reader.unread)
      requires reader.InOrder() && reader.valid && reader.pending && reader.at == 2 * blockLen && reader.desired == blockLen
      requires reader.Untouched(buffer)
      requires !reader.sawZero && (reader.unread != "" ==> dataEnd == blockLen)
      modifies this`dataEnd, buffer, reader`unread, reader`pending, reader`sawZero
      ensures old(dataEnd) <= dataEnd <= 2 * blockLen && Aligned(reader.unread) && reader.InOrder() && !reader.pending
      ensures reader.unread != "" ==> dataEnd == 2 * blockLen && !reader.sawZero
      ensures reader.sawZero ==> dataEnd <= blockLen
    {
      hide BlockReader.InOrder;
      var count := reader.FinishRead(buffer);
      CopyBlock(2 * blockLen, blockLen);
      dataEnd := dataEnd + count;
    }

    /** Finds the end of the line inside the window. */
    method FindLineEnd() returns (lineEnd: nat)
      requires Aligned(reader.unread)
      ensures dataBegin <= lineEnd <= dataEnd
      ensures lineEnd < dataEnd || reader.unread == "" ==> lineEnd == dataBegin + LineLength(rest)
      ensures LineLength(rest) >= lineEnd - dataBegin
    {
      lineEnd := dataBegin;
      while lineEnd != dataEnd && buffer[lineEnd] != '\n'
        invariant dataBegin <= lineEnd <= dataEnd
        invariant forall i :: 0 <= i < lineEnd - dataBegin ==> rest[i] != '\n'
      {
        lineEnd := lineEnd + 1;
      }
      if lineEnd < dataEnd || reader.unread == "" {
        LineLengthIs(rest, lineEnd - dataBegin);
      }
      LineLengthAtLeast(rest, lineEnd - dataBegin);
    }

    /** Ends the first line of the window with a NUL, and gives its length, or -1 if it is too long. */
    method CutLine() returns (length: int)
      requires Valid() && dataBegin < dataEnd && dataBegin < blockLen
      modifies this`dataBegin, this`dataEnd, this`rest, buffer
      ensures Valid()
      ensures LineLength(old(rest)) >= blockLen ==> length == -1 && rest == old(rest)
      ensures LineLength(old(rest)) < blockLen ==>
        && length == |StripCR(FirstLine(old(rest)))| && old(dataBegin) + length < dataBegin
        && StandsAt(buffer[..], old(dataBegin), StripCR(FirstLine(old(rest))))
        && rest == AfterLine(old(rest))
      ensures forall i :: 2 * blockLen <= i < buffer.Length ==> buffer[i] == old(buffer[i])
    {
      hide LineLength, StripCR, FirstLine, AfterLine, StandsAt, BlockReader.InOrder, BlockReader.Untouched;
      var lineEnd := FindLineEnd();
      if lineEnd - dataBegin + 1 > blockLen {
        return -1;
      }
      ghost var line := FirstLine(rest);
      FirstLineAt(rest);
      length := EndLine(lineEnd, line);
      if lineEnd == dataEnd {
        // some files are missing the newline at the end of the last line
        dataEnd := dataEnd + 1;
      }
      rest := AfterLine(rest);
      dataBegin := lineEnd + 1;
    }

    method EndLine(lineEnd: nat, ghost line: string) returns (length: nat)
      requires dataBegin <= lineEnd < 2 * blockLen <= buffer.Length && |line| == lineEnd - dataBegin
      requires forall i :: dataBegin <= i < lineEnd ==> buffer[i] == line[i - dataBegin]
      modifies buffer
      ensures length == |StripCR(line)| <= |line| && StandsAt(buffer[..], dataBegin, StripCR(line))
      ensures forall i :: 0 <= i < buffer.Length && !(dataBegin <= i <= lineEnd) ==> buffer[i] == old(buffer[i])
      ensures lineEnd < reader.at && old(reader.Untouched(buffer)) ==> reader.Untouched(buffer)
    {
      buffer[lineEnd] := '\0';
      length := lineEnd - dataBegin;
      // handle windows \r\n line breaks
      if lineEnd != dataBegin && buffer[lineEnd - 1] == '\r' {
        buffer[lineEnd - 1] := '\0';
        length := length - 1;
      }
    }

    /**
      What the next line of `text` is answered with: a line shorter than a block stands in the
      buffer, ended by a NUL, in front of the window, and the text after it is left to be read.
     */
    ghost predicate Answers(r: NextLineResult, text: string)
      reads this, buffer
    {
      if text == "" then r == NoMoreLines && rest == ""
      else if LineLength(text) >= blockLen then r == LineTooLong && rest == text
      else
        && r.Line? && r.length == |StripCR(FirstLine(text))| && r.start + r.length < dataBegin
        && StandsAt(buffer[..], r.start, StripCR(FirstLine(text)))
        && rest == AfterLine(text)
    }

    /** Cuts the next line out of the window. While a read is pending its block stays as it was lent, which is part of Valid. */
    method NextLine() returns (r: NextLineResult)
      requires Valid()
      modifies this`dataBegin, this`dataEnd, this`fileLine, this`rest, buffer, reader
      ensures Valid()
      ensures Answers(r, old(rest))
      ensures fileLine == old(fileLine) + if old(rest) == "" then 0 else 1
    {
      hide LineLength, StripCR, FirstLine, AfterLine, StandsAt, BlockReader.InOrder, BlockReader.Untouched;
      if dataBegin == dataEnd {
        return NoMoreLines;
      }
      fileLine := fileLine + 1;
      if dataBegin >= blockLen {
        SlideWindow();
      }
      var start := dataBegin;
      var length := CutLine();
      if length == -1 {
        return LineTooLong;
      }
      r := Line(start, length);
    }
  }

  /** The client's loop: every line there is, until the end of the input or the first line that is too long. */
  method ReadAllLines(source: string, block: nat) returns (lines: seq<string>, tooLong: bool)
    requires block >= 4
    ensures Reading(lines, tooLong) == ReadLines(Content(source), block)
  {
    hide LineLength, StripCR, FirstLine, AfterLine, ReadLines;
    var reader := new LineReader(source, block);
    ghost var text := reader.rest;
    lines := [];
    tooLong := false;
    var more := true;
    PrependMore([], "", ReadLines(text, block));
    while more
      invariant reader.Valid() && reader.blockLen == block
      invariant fresh(reader) && fresh(reader.buffer) && fresh(reader.reader)
      invariant more ==> !tooLong && ReadLines(text, block) == Prepend(lines, ReadLines(reader.rest, block))
      invariant !more ==> ReadLines(text, block) == Reading(lines, tooLong)
      decreases |reader.rest|, more
    {
      ghost var rest := reader.rest;
      ReadLinesStep(rest, block);
      PrependNothing(lines, tooLong);
      PrependNothing(lines, true);
      var r := reader.NextLine();
      match r
      case NoMoreLines =>
        more := false;
      case LineTooLong =>
        more, tooLong := false, true;
      case Line(start, length) =>
        var line := reader.buffer[start..start + length];
        assert line == StripCR(FirstLine(rest));
        PrependMore(lines, line, ReadLines(reader.rest, block));
        lines := lines + [line];
    }
  }
}
