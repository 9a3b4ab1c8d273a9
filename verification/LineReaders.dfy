/** Reading a file line by line through a buffer of fixed size. */
module LineReaders {
  import opened Params
  import opened Arith

  /** A file opened for reading; a read that comes up short has met the end. */
  class File {
    const content: string
    var pos: nat
    var eof: bool

    ghost predicate Valid()
      reads this
    {
      pos <= |content| && (eof ==> pos == |content|)
    }

    constructor (content: string)
      ensures Valid() && this.content == content && pos == 0
    {
      this.content, pos, eof := content, 0, false;
    }

    method Seek(to: nat)
      requires to <= |content|
      modifies this
      ensures Valid() && pos == to
    {
      pos, eof := to, false;
    }

    method Read(buf: array<char>, n: nat) returns (got: nat)
      requires Valid() && n <= buf.Length
      modifies this, buf
      ensures Valid() && got == (if |content| - old(pos) < n then |content| - old(pos) else n)
      ensures pos == old(pos) + got && buf[..got] == content[old(pos)..pos]
    {
      got := if |content| - pos < n then |content| - pos else n;
      forall i | 0 <= i < got {
        buf[i] := content[pos + i];
      }
      pos := pos + got;
      eof := eof || got < n;
    }
  }

  // ---------- what a line is ----------

  /** Where the first newline is, or the length of the text. */
  function LineEnd(s: string): (e: nat)
    ensures e <= |s| && (e < |s| ==> s[e] == '\n') && '\n' !in s[..e]
  {
    if s == [] || s[0] == '\n' then 0 else
      var e := LineEnd(s[1..]);
      assert s[..e + 1] == [s[0]] + s[1..][..e];
      e + 1
  }

  function AfterLine(s: string): string {
    if LineEnd(s) < |s| then s[LineEnd(s) + 1..] else []
  }

  /** The lines of a text: a final newline ends the last line and begins no other. */
  function Lines(s: string): seq<string>
    decreases |s|
  {
    if s == [] then [] else [s[..LineEnd(s)]] + Lines(AfterLine(s))
  }

  predicate IsLine(s: string) {
    '\n' !in s
  }

  /** Lines written one after the other, each with its newline. */
  function Unlines(lines: seq<string>): string {
    if lines == [] then [] else lines[0] + "\n" + Unlines(lines[1..])
  }

  lemma {:induction false} LineEndUnique(s: string, e: nat)
    requires e <= |s| && (e < |s| ==> s[e] == '\n') && IsLine(s[..e])
    ensures LineEnd(s) == e
  {
    if e > 0 {
      assert s[..e][0] == s[0];
      assert s[1..][..e - 1] == s[..e][1..];
      LineEndUnique(s[1..], e - 1);
    }
  }

  lemma LineEndIs(line: string, rest: string)
    requires IsLine(line)
    ensures var s := line + "\n" + rest;
            s != [] && LineEnd(s) == |line| && s[..|line|] == line && AfterLine(s) == rest
  {
    hide LineEnd;
    var s := line + "\n" + rest;
    assert s[..|line|] == line;
    LineEndUnique(s, |line|);
  }

  lemma LastLine(s: string)
    requires IsLine(s)
    ensures LineEnd(s) == |s| && s[..|s|] == s && AfterLine(s) == []
  {
    hide LineEnd;
    assert s[..|s|] == s;
    LineEndUnique(s, |s|);
  }

  /** Any lines, written out with a text without newline after them, read back as those lines. */
  lemma {:induction false} LinesOfUnlines(lines: seq<string>, last: string)
    requires IsLine(last) && forall l <- lines :: IsLine(l)
    ensures Lines(Unlines(lines) + last) == lines + if last == [] then [] else [last]
  {
    hide LineEnd, AfterLine;
    if lines == [] {
      assert Unlines(lines) + last == last;
      LastLine(last);
    } else {
      var rest := Unlines(lines[1..]) + last;
      assert Unlines(lines) + last == lines[0] + "\n" + rest;
      LineEndIs(lines[0], rest);
      LinesOfUnlines(lines[1..], last);
      assert lines == [lines[0]] + lines[1..];
    }
  }

  /** Every text is its lines written out, but for a newline missing at its end. */
  lemma {:induction false} UnlinesOfLines(s: string)
    ensures forall l <- Lines(s) :: IsLine(l)
    ensures Unlines(Lines(s)) == if s == [] || s[|s| - 1] == '\n' then s else s + "\n"
    ensures |Lines(s)| <= |s|
    decreases |s|
  {
    hide LineEnd;
    if s != [] {
      var e, rest := LineEnd(s), AfterLine(s);
      UnlinesOfLines(rest);
      assert Lines(s)[0] == s[..e] && Lines(s)[1..] == Lines(rest);
      Cut(s);
    }
  }

  lemma Cut(s: string)
    requires s != []
    ensures var e, rest := LineEnd(s), AfterLine(s);
            && (e < |s| ==> s == s[..e] + "\n" + rest && (rest != [] ==> rest[|rest| - 1] == s[|s| - 1]))
            && (e < |s| && rest == [] ==> s[|s| - 1] == '\n')
            && (e == |s| ==> s[..e] == s && rest == [] && s[|s| - 1] != '\n')
  {
    hide LineEnd;
    var e := LineEnd(s);
    assert e == |s| ==> s[|s| - 1] in s[..e];
  }

  lemma LineInBuffer(had: string, buf: string, pos: nat, i: nat, end: nat, rest: string)
    requires pos <= i < end <= |buf| && buf[i] == '\n'
    ensures had + (buf[pos..end] + rest) == (had + buf[pos..i]) + "\n" + ([] + (buf[i + 1..end] + rest))
  {
    assert buf[pos..end] == buf[pos..i] + "\n" + buf[i + 1..end];
  }

  // ---------- a part of a file ----------

  /** The lines of a text that end in a newline. */
  function Ended(s: string): seq<string>
    decreases |s|
  {
    if LineEnd(s) < |s| then [s[..LineEnd(s)]] + Ended(AfterLine(s)) else []
  }

  /** The lines handed out: at the end of the file a last line needs no newline, elsewhere it may be partial. */
  function CutLines(s: string, atEnd: bool): seq<string> {
    if atEnd then Lines(s) else Ended(s)
  }

  /**
   What is handed out when the first line is to be skipped: without a newline
   there is nothing to skip, and a file that ends right after the skipped line
   yields an empty one.
   */
  function SkipLines(s: string, atEnd: bool): seq<string> {
    if IsLine(s) then CutLines(s, atEnd)
    else if AfterLine(s) == [] && atEnd then [[]]
    else CutLines(AfterLine(s), atEnd)
  }

  /** How much is read at a time. */
  function Cap(start: nat, end: nat, buffer: nat): nat
    requires start <= end
  {
    if buffer < end - start then buffer else end - start
  }

  /** Where reading stops once `r` bytes from `start` on are read: the cap on a read never shrinks. */
  function StopFrom(start: nat, end: nat, size: nat, buffer: nat, r: nat): (stop: nat)
    requires start <= end <= size && buffer > 0 && start + r <= size
    ensures end <= stop <= size && start + r <= stop
    decreases end - start - r
  {
    if r >= end - start then start + r
    else
      var cap := Cap(start, end, buffer);
      StopFrom(start, end, size, buffer, if r + cap < size - start then r + cap else size - start)
  }

  lemma StopNext(start: nat, end: nat, size: nat, buffer: nat, r: nat)
    requires start <= end <= size && buffer > 0 && start + r <= size && r < end - start
    ensures var cap := Cap(start, end, buffer);
            StopFrom(start, end, size, buffer, r) ==
            StopFrom(start, end, size, buffer, if r + cap < size - start then r + cap else size - start)
  {
  }

  lemma Stretch(content: string, from: nat, to: nat, stop: nat, part: string)
    requires from <= to <= stop <= |content| && part == content[from..to]
    ensures content[from..stop] == part + content[to..stop]
  {
  }

  /** The text that is read for a part of a file. */
  function RangeText(content: string, start: nat, end: nat, buffer: nat): string
    requires start <= end <= |content| && buffer > 0
  {
    content[start..StopFrom(start, end, |content|, buffer, 0)]
  }

  /** The lines that are handed out for a part of a file. */
  function RangeLines(content: string, start: nat, end: nat, buffer: nat): seq<string>
    requires start <= end <= |content| && buffer > 0
  {
    var text := RangeText(content, start, end, buffer);
    if start != 0 then SkipLines(text, end == |content|) else CutLines(text, end == |content|)
  }

  /** Of the whole file all lines are handed out. */
  lemma WholeFile(content: string, buffer: nat)
    requires buffer > 0
    ensures RangeLines(content, 0, |content|, buffer) == Lines(content)
  {
    hide Lines;
    assert RangeText(content, 0, |content|, buffer) == content;
  }

  lemma {:induction false} StopIs(start: nat, end: nat, size: nat, buffer: nat, r: nat)
    requires start < end < size && buffer > 0 && r <= end - start
    ensures StopFrom(start, end, size, buffer, r) == end <==> (end - start - r) % Cap(start, end, buffer) == 0
    decreases end - start - r
  {
    var cap, left := Cap(start, end, buffer), end - start - r;
    if left < cap {
      DivModUnique(left, cap, 0, left);
    } else {
      DivStep(left, cap);
      StopIs(start, end, size, buffer, r + cap);
    }
  }

  /**
   No byte past the end position is read if and only if the part fits the
   buffer, is a multiple of it, or ends with the file.
   */
  lemma StopsAtEnd(start: nat, end: nat, size: nat, buffer: nat)
    requires start <= end <= size && buffer > 0
    ensures StopFrom(start, end, size, buffer, 0) == end <==>
            end - start <= buffer || (end - start) % buffer == 0 || end == size
  {
    if start < end < size {
      StopIs(start, end, size, buffer, 0);
      DivModUnique(end - start, end - start, 1, 0);
    }
  }

  /** What the documentation promises of a part: without its first and its last line, which may be partial. */
  function Documented(content: string, start: nat, end: nat): seq<string>
    requires start <= end <= |content|
  {
    var part := content[start..end];
    CutLines(if start != 0 then AfterLine(part) else part, end == |content|)
  }

  /** When the promise is kept: a caller can tell from the file, the part and the buffer. */
  predicate KeepsPromise(content: string, start: nat, end: nat, buffer: nat)
    requires start <= end <= |content| && buffer > 0
  {
    var part, past := content[start..end], content[end..StopFrom(start, end, |content|, buffer, 0)];
    if end == |content| then start == 0 || part == [] || AfterLine(part) != []
    else IsLine(past) || (start != 0 && IsLine(part) && IsLine(AfterLine(past)))
  }

  /** Further text adds ended lines exactly if it holds a newline. */
  lemma {:induction false} EndedMore(a: string, b: string)
    ensures Ended(a + b) == Ended(a) <==> IsLine(b)
    decreases |a|
  {
    hide LineEnd, Ended;
    EndedIs(a);
    EndedIs(a + b);
    if IsLine(a) {
      LineDelayed(a, b);
      LineOrNot(a);
      LineOrNot(b);
    } else {
      LineOrNot(a);
      SplitAtLine(a, b);
      EndedMore(AfterLine(a), b);
      assert Ended(a + b)[1..] == Ended(AfterLine(a) + b) && Ended(a)[1..] == Ended(AfterLine(a));
    }
  }

  lemma EndedIs(s: string)
    ensures Ended(s) == if LineEnd(s) < |s| then [s[..LineEnd(s)]] + Ended(AfterLine(s)) else []
  {
  }

  /** A text without newline only delays the first newline of what follows. */
  lemma LineDelayed(a: string, b: string)
    requires IsLine(a)
    ensures LineEnd(a + b) == |a| + LineEnd(b) && AfterLine(a + b) == AfterLine(b)
  {
    hide LineEnd;
    var e := LineEnd(b);
    assert (a + b)[..|a| + e] == a + b[..e];
    LineEndUnique(a + b, |a| + e);
    assert e < |b| ==> (a + b)[|a| + e + 1..] == b[e + 1..];
  }

  lemma LineOrNot(s: string)
    ensures IsLine(s) <==> LineEnd(s) == |s|
    ensures LineEnd(s) == |s| ==> AfterLine(s) == []
  {
    hide LineEnd;
    if IsLine(s) {
      LastLine(s);
    } else {
      assert s[..|s|] == s;
    }
  }

  /** The first line of a text with a newline stays when text is added. */
  lemma SplitAtLine(a: string, b: string)
    requires !IsLine(a)
    ensures |AfterLine(a)| < |a|
    ensures LineEnd(a + b) == LineEnd(a) < |a| && AfterLine(a + b) == AfterLine(a) + b
    ensures (a + b)[..LineEnd(a)] == a[..LineEnd(a)]
  {
    hide LineEnd;
    LineOrNot(a);
    var e := LineEnd(a);
    assert (a + b)[..e] == a[..e];
    LineEndUnique(a + b, e);
  }

  /** A part of a file is handed out as documented if and only if the condition holds. */
  lemma RangeAsDocumented(content: string, start: nat, end: nat, buffer: nat)
    requires start <= end <= |content| && buffer > 0
    ensures RangeLines(content, start, end, buffer) == Documented(content, start, end) <==>
            KeepsPromise(content, start, end, buffer)
  {
    hide LineEnd, AfterLine, Ended, Lines, StopFrom;
    var stop := StopFrom(start, end, |content|, buffer, 0);
    var part, past := content[start..end], content[end..stop];
    assert content[start..stop] == part + past;
    if end == |content| {
      assert part + past == part;
      LastPart(part);
    } else if start == 0 {
      EndedMore(part, past);
    } else {
      SkippedPart(part, past);
    }
  }

  lemma LastPart(part: string)
    ensures SkipLines(part, true) == Lines(AfterLine(part)) <==> part == [] || AfterLine(part) != []
  {
    hide LineEnd, AfterLine;
    LineOrNot(part);
    if IsLine(part) {
      NextLine(part);
    }
  }

  lemma SkippedPart(part: string, past: string)
    ensures SkipLines(part + past, false) == Ended(AfterLine(part)) <==>
            IsLine(past) || (IsLine(part) && IsLine(AfterLine(past)))
  {
    hide LineEnd, AfterLine, Ended;
    LineOrNot(part);
    LineOrNot(past);
    LineOrNot(part + past);
    EndedIs(part + past);
    NothingEnds();
    if IsLine(part) {
      LineDelayed(part, past);
      EndedMore([], AfterLine(past));
      assert [] + AfterLine(past) == AfterLine(past);
    } else {
      SplitAtLine(part, past);
      EndedMore(AfterLine(part), past);
    }
  }

  lemma NothingEnds()
    ensures Ended([]) == [] && IsLine([]) && AfterLine([]) == []
  {
  }

  /** For every buffer of two bytes or more some part reads lines past its end. */
  lemma ReadsPastEnd(buffer: nat)
    requires buffer >= 2
    ensures var content := seq(2 * buffer + 1, _ => '\n');
            RangeLines(content, 0, buffer + 1, buffer) != Documented(content, 0, buffer + 1)
  {
    var content := seq(2 * buffer + 1, _ => '\n');
    assert (buffer + 1) % buffer == 1;
    StopsAtEnd(0, buffer + 1, |content|, buffer);
    var stop := StopFrom(0, buffer + 1, |content|, buffer, 0);
    assert content[buffer + 1..stop][0] == '\n';
    RangeAsDocumented(content, 0, buffer + 1, buffer);
  }

  // ---------- the reader ----------

  /** What is left to hand out: `skip` tells that a first line is, `blank` that an empty line was begun. */
  function LeftOf(skip: bool, blank: bool, s: string, atEnd: bool): seq<string> {
    if skip then SkipLines(s, atEnd)
    else if blank && s == [] && atEnd then [[]]
    else CutLines(s, atEnd)
  }

  /** Reads the lines of a file between two positions, through a buffer. */
  class LineReader {
    const file: File
    const buf: array<char>
    const fileStart: nat
    const fileEnd: nat
    const fileSize: nat
    var bufLength: nat
    var pos: nat
    var currentLine: Option<string>
    var readSize: nat

    ghost predicate Valid()
      reads this, file, buf
      ensures Valid() ==> InFile()
    {
      && InFile() && file.Valid()
      && (currentLine.Some? ==> IsLine(currentLine.value))
    }

    /** The positions fit together. */
    ghost predicate InFile()
      reads this, file
    {
      && fileStart <= fileEnd <= fileSize == |file.content| && buf.Length > 0
      && pos <= bufLength <= buf.Length && bufLength <= readSize
      && file.pos == fileStart + readSize <= |file.content|
    }

    /** The text read from the file but not yet handed out, and the text still to be read. */
    ghost function Pending(): string
      requires InFile()
      reads this, file, buf
    {
      buf[pos..bufLength] + file.content[file.pos..StopFrom(fileStart, fileEnd, fileSize, buf.Length, readSize)]
    }

    ghost function Current(): string
      reads this
    {
      if currentLine.Some? then currentLine.value else []
    }

    /** All the text that is left. */
    ghost function Remaining(): string
      requires InFile()
      reads this, file, buf
    {
      Current() + Pending()
    }

    /** Whether the next line is the first, and partial. */
    ghost predicate Skips()
      reads this
    {
      readSize == 0 && fileStart != 0
    }

    /** The lines left to hand out. */
    ghost function LinesLeft(): seq<string>
      requires InFile()
      reads this, file, buf
    {
      LeftOf(Skips(), false, Remaining(), fileEnd == fileSize)
    }

    constructor (file: File, fileStart: nat, fileEnd: nat, bufferSize: nat)
      requires file.Valid() && bufferSize > 0 && fileStart <= fileEnd <= |file.content|
      modifies file
      ensures this.file == file && Valid() && currentLine.None? && fresh(buf) && buf.Length == bufferSize
      ensures this.fileStart == fileStart && this.fileEnd == fileEnd
      ensures LinesLeft() == RangeLines(file.content, fileStart, fileEnd, bufferSize)
    {
      this.file, this.fileStart, this.fileEnd, fileSize := file, fileStart, fileEnd, |file.content|;
      buf := new char[bufferSize](_ => '\0');
      bufLength, pos, readSize, currentLine := 0, 0, 0, None;
      new;
      file.Seek(fileStart);
      assert Remaining() == RangeText(file.content, fileStart, fileEnd, bufferSize);
    }

    method GetCurrentLine() returns (line: Option<string>)
      modifies this`currentLine
      ensures line == old(currentLine) && currentLine.None?
    {
      line := currentLine;
      currentLine := None;
    }

    method AppendCurrentLine(start: nat, end: nat)
      requires start <= end <= buf.Length
      modifies this`currentLine
      ensures currentLine == Some(old(Current()) + buf[start..end])
    {
      currentLine := Some((if currentLine.Some? then currentLine.value else []) + buf[start..end]);
    }

    /** Reads the next stretch of the file into the buffer. */
    method Fill()
      requires Valid() && pos == bufLength && readSize < fileEnd - fileStart
      modifies this`bufLength, this`pos, this`readSize, file, buf
      ensures Valid() && pos == 0 < bufLength && readSize == old(readSize) + bufLength
      ensures Remaining() == old(Remaining())
    {
      hide StopFrom;
      StopNext(fileStart, fileEnd, fileSize, buf.Length, readSize);
      ghost var before := file.pos;
      // the cap is on the position where reading began, not on what is left
      var toRead := Cap(fileStart, fileEnd, buf.Length);
      bufLength := file.Read(buf, toRead);
      readSize := readSize + bufLength;
      pos := 0;
      ghost var stop := StopFrom(fileStart, fileEnd, fileSize, buf.Length, readSize);
      Stretch(file.content, before, file.pos, stop, buf[pos..bufLength]);
    }

    /** Looks for a newline in the buffer. */
    method FindNewline() returns (i: nat)
      requires pos <= bufLength <= buf.Length
      ensures pos <= i <= bufLength && '\n' !in buf[pos..i] && (i < bufLength ==> buf[i] == '\n')
    {
      i := pos;
      while i < bufLength && buf[i] != '\n'
        invariant pos <= i <= bufLength && '\n' !in buf[pos..i]
      {
        assert buf[pos..i + 1] == buf[pos..i] + [buf[i]];
        i := i + 1;
      }
    }

    /** Ends the current line at the newline at `i`. */
    method EndLine(i: nat) returns (line: string)
      requires Valid() && pos <= i < bufLength && IsLine(buf[pos..i]) && buf[i] == '\n'
      modifies this`currentLine, this`pos
      ensures Valid() && currentLine.None? && pos == i + 1
      ensures old(Remaining()) == line + "\n" + Remaining() && IsLine(line)
    {
      LineInBuffer(Current(), buf[..], pos, i, bufLength,
                   file.content[file.pos..StopFrom(fileStart, fileEnd, fileSize, buf.Length, readSize)]);
      AppendCurrentLine(pos, i);
      pos := i + 1;
      var whole := GetCurrentLine();
      line := whole.value;
    }

    /** Keeps what is left in the buffer, none of it a newline, for the current line. */
    method KeepRest()
      requires Valid() && IsLine(buf[pos..bufLength])
      modifies this`currentLine, this`pos
      ensures Valid() && pos == bufLength && Remaining() == old(Remaining())
      ensures currentLine.Some? && (currentLine == Some([]) <==> old(Current()) == [] && old(pos) == bufLength)
    {
      AppendCurrentLine(pos, bufLength);
      pos := bufLength;
    }

    /** When reading is over only the current line is left. */
    lemma OnlyCurrent()
      requires Valid() && pos == bufLength && (readSize >= fileEnd - fileStart || file.eof)
      ensures Pending() == [] && IsLine(Remaining()) && Remaining() == Current()
    {
    }

    /** Ends the reading: away from the end of the file the last line may be partial, and is dropped. */
    method LastLineOrNone() returns (line: Option<string>)
      requires Valid() && pos == bufLength && (readSize >= fileEnd - fileStart || file.eof)
      modifies this`currentLine
      ensures Valid() && currentLine.None? && Remaining() == []
      ensures line == if fileEnd == fileSize then old(currentLine) else None
    {
      OnlyCurrent();
      line := GetCurrentLine();
      OnlyCurrent();
      if fileEnd != fileSize {
        line := None;
      }
    }

    /** The lines left in the middle of a call. */
    ghost function Todo(skip: bool): seq<string>
      requires InFile()
      reads this, file, buf
    {
      LeftOf(skip, currentLine == Some([]), Remaining(), fileEnd == fileSize)
    }

    /** Reading is over: the line is the last of those left. */
    method Stop(skip: bool) returns (line: Option<string>)
      requires Valid() && pos == bufLength && (readSize >= fileEnd - fileStart || file.eof)
      requires skip ==> currentLine != Some([])
      modifies this`currentLine
      ensures Valid() && currentLine.None? && LinesLeft() == []
      ensures old(Todo(skip)) == if line.Some? then [line.value] else []
    {
      hide LeftOf, LineReader.Remaining, LineReader.Pending;
      OnlyCurrent();
      LeftAtStop(skip, currentLine, fileEnd == fileSize);
      line := LastLineOrNone();
      LeftOfNothing(Skips(), fileEnd == fileSize);
    }

    /** Drops the first line, which may be partial. */
    method SkipLine(i: nat)
      requires Valid() && pos <= i < bufLength && IsLine(buf[pos..i]) && buf[i] == '\n'
      modifies this`currentLine, this`pos
      ensures Valid() && currentLine.None? && pos == i + 1
      ensures old(Todo(true)) == LeftOf(false, true, Remaining(), fileEnd == fileSize)
    {
      hide LeftOf, LineReader.Remaining, LineReader.Pending;
      ghost var blank := currentLine == Some([]);
      var dropped := EndLine(i);
      LeftAfterSkip(blank, dropped, Remaining(), fileEnd == fileSize);
    }

    /** Hands out a line that ends in the buffer. */
    method FinishLine(i: nat, ghost blank: bool) returns (line: string)
      requires Valid() && pos <= i < bufLength && IsLine(buf[pos..i]) && buf[i] == '\n'
      modifies this`currentLine, this`pos
      ensures Valid() && currentLine.None?
      ensures old(LeftOf(false, blank, Remaining(), fileEnd == fileSize)) == [line] + LinesLeft()
    {
      hide LeftOf, LineReader.Remaining, LineReader.Pending;
      line := EndLine(i);
      LeftAfterLine(blank, line, Remaining(), fileEnd == fileSize);
    }

    /** Goes on to the next stretch with the line begun; right after a skipped line it is begun empty. */
    method GoOn(skip: bool, ghost blank: bool)
      requires Valid() && IsLine(buf[pos..bufLength])
      requires pos == bufLength ==> !skip && blank && currentLine.None?
      modifies this`currentLine, this`pos
      ensures Valid() && pos == bufLength && (skip ==> currentLine != Some([]))
      ensures Todo(skip) == old(LeftOf(skip, blank, Remaining(), fileEnd == fileSize))
    {
      hide LeftOf, LineReader.Remaining, LineReader.Pending;
      NotEmpty();
      BlankOrNot(Remaining(), fileEnd == fileSize);
      KeepRest();
    }

    /** Hands out the next line, or nothing when there is none left. */
    method ReadLine() returns (line: Option<string>)
      requires Valid() && currentLine.None?
      modifies this, file, buf
      ensures Valid() && currentLine.None?
      ensures if old(LinesLeft()) == [] then line.None? && LinesLeft() == []
              else line == Some(old(LinesLeft())[0]) && LinesLeft() == old(LinesLeft())[1..]
    {
      hide LeftOf, LineReader.Remaining, LineReader.Pending;
      ghost var all := LinesLeft();
      var skip := readSize == 0 && fileStart != 0;
      while true
        invariant Valid() && (skip ==> currentLine != Some([])) && all == Todo(skip)
        decreases |file.content| - readSize, bufLength - pos
      {
        if pos >= bufLength {
          if readSize >= fileEnd - fileStart || file.eof {
            line := Stop(skip);
            return;
          }
          Fill();
        }
        var i := FindNewline();
        ghost var blank := currentLine == Some([]);
        if i < bufLength && skip {
          SkipLine(i);
          skip, blank := false, true;
          i := FindNewline();
        }
        if i < bufLength {
          var text := FinishLine(i, blank);
          line := Some(text);
          return;
        }
        GoOn(skip, blank);
      }
    }

    lemma NotEmpty()
      requires InFile()
      ensures pos < bufLength ==> Remaining() != []
    {
    }

    /** Goes back to the start position. */
    method Reset()
      requires Valid()
      modifies this, file
      ensures Valid() && currentLine.None?
      ensures LinesLeft() == RangeLines(file.content, fileStart, fileEnd, buf.Length)
    {
      currentLine := None;
      file.Seek(fileStart);
      pos, bufLength, readSize := 0, 0, 0;
      assert Remaining() == RangeText(file.content, fileStart, fileEnd, buf.Length);
    }
  }

  /** Reads on until there are no lines left. */
  method ReadAll(file: File, fileStart: nat, fileEnd: nat, bufferSize: nat) returns (lines: seq<string>)
    requires file.Valid() && bufferSize > 0 && fileStart <= fileEnd <= |file.content|
    modifies file
    ensures lines == RangeLines(file.content, fileStart, fileEnd, bufferSize)
    ensures fileStart == 0 && fileEnd == |file.content| ==> lines == Lines(file.content)
  {
    hide Lines, RangeLines, LineReader.LinesLeft;
    WholeFile(file.content, bufferSize);
    var reader := new LineReader(file, fileStart, fileEnd, bufferSize);
    ghost var all := reader.LinesLeft();
    lines := [];
    while true
      invariant reader.Valid() && reader.currentLine.None?
      invariant all == lines + reader.LinesLeft()
      decreases |reader.LinesLeft()|
    {
      var next := reader.ReadLine();
      if next.None? {
        return;
      }
      lines := lines + [next.value];
    }
  }

  // ---------- what is left ----------

  lemma CutMore(text: string, rest: string, atEnd: bool)
    requires IsLine(text)
    ensures CutLines(text + "\n" + rest, atEnd) == [text] + CutLines(rest, atEnd)
  {
    hide LineEnd, AfterLine, Lines, Ended;
    var s := text + "\n" + rest;
    LineEndIs(text, rest);
    NextLine(s);
    EndedIs(s);
  }

  lemma CutNothing(atEnd: bool)
    ensures CutLines([], atEnd) == []
  {
  }

  lemma LeftOfNothing(skip: bool, atEnd: bool)
    ensures LeftOf(skip, false, [], atEnd) == []
  {
    CutNothing(atEnd);
  }

  /** When reading is over, the current line is the last one, if lines may end with the file. */
  lemma LeftAtStop(skip: bool, current: Option<string>, atEnd: bool)
    requires (current.Some? ==> IsLine(current.value)) && (skip ==> current != Some([]))
    ensures LeftOf(skip, current == Some([]), if current.Some? then current.value else [], atEnd) ==
            if atEnd && current.Some? then [current.value] else []
  {
    hide LineEnd, AfterLine;
    var s := if current.Some? then current.value else [];
    LastLine(s);
    CutNothing(atEnd);
    NextLine(s);
    NextLine([]);
    EndedIs(s);
  }

  lemma LeftAfterLine(blank: bool, text: string, rest: string, atEnd: bool)
    requires IsLine(text)
    ensures LeftOf(false, blank, text + "\n" + rest, atEnd) == [text] + LeftOf(false, false, rest, atEnd)
  {
    CutMore(text, rest, atEnd);
  }

  lemma LeftAfterSkip(blank: bool, dropped: string, rest: string, atEnd: bool)
    requires IsLine(dropped)
    ensures LeftOf(true, blank, dropped + "\n" + rest, atEnd) == LeftOf(false, true, rest, atEnd)
  {
    hide LineEnd, AfterLine;
    var s := dropped + "\n" + rest;
    LineEndIs(dropped, rest);
    LineOrNot(s);
  }

  lemma BlankOrNot(rest: string, atEnd: bool)
    ensures rest != [] ==> LeftOf(false, true, rest, atEnd) == LeftOf(false, false, rest, atEnd)
    ensures LeftOf(true, true, rest, atEnd) == LeftOf(true, false, rest, atEnd)
  {
  }

  lemma NextLine(s: string)
    ensures if s == [] then Lines(s) == [] && AfterLine(s) == []
            else Lines(s) == [s[..LineEnd(s)]] + Lines(AfterLine(s))
  {
  }
}
