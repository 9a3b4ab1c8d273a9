/** The SoR parser: a scanner over each line, the guess of the schema, and the columns it fills. */
module SorParsers {
  import opened Params
  import opened Messages
  import opened Text
  import opened Wire
  import opened Layout
  import opened Frames
  import opened LineReaders
  import opened SorText
  import opened SorGuess

  datatype ParserMode = DetectNumColumns | DetectSchema | ParseTheFile

  /** A part of a line, that can be narrowed but not changed. */
  class StrSlice {
    const str: string
    var start: nat
    var end: nat

    predicate Valid()
      reads this
    {
      start <= end <= |str|
    }

    function Text(): string
      requires Valid()
      reads this
    {
      str[start..end]
    }

    constructor (str: string, start: nat, end: nat)
      requires start <= end <= |str|
      ensures Valid() && Text() == str[start..end]
    {
      this.str, this.start, this.end := str, start, end;
    }

    /** Drops `c` from both ends. */
    method Trim(c: char)
      requires Valid()
      modifies this
      ensures Valid() && Text() == Trimmed(old(Text()), c)
    {
      TrimStart(c);
      TrimEnd(c);
    }

    method TrimStart(c: char)
      requires Valid()
      modifies this`start
      ensures Valid() && Text() == TrimmedLeft(old(Text()), c)
    {
      hide TrimmedLeft, TrimmedRight, StrSlice.Text;
      ghost var text := Text();
      while start < end && str[start] == c
        invariant Valid() && TrimmedLeft(text, c) == TrimmedLeft(Text(), c)
      {
        DropsFirst(c);
        start := start + 1;
        TextIs();
      }
      KeepsFirst(c);
    }

    method TrimEnd(c: char)
      requires Valid()
      modifies this`end
      ensures Valid() && Text() == TrimmedRight(old(Text()), c)
    {
      hide TrimmedLeft, TrimmedRight;
      ghost var text := Text();
      while start < end && str[end - 1] == c
        invariant Valid() && TrimmedRight(text, c) == TrimmedRight(Text(), c)
      {
        TrimRightStep(Text(), c);
        assert Text()[..|Text()| - 1] == str[start..end - 1];
        end := end - 1;
      }
      TrimRightStep(Text(), c);
    }

    lemma TextIs()
      requires Valid()
      ensures Text() == str[start..end]
    {
    }

    lemma DropsFirst(c: char)
      requires Valid() && start < end && str[start] == c
      ensures TrimmedLeft(Text(), c) == TrimmedLeft(str[start + 1..end], c)
    {
      hide TrimmedLeft, TrimmedRight;
      var text, rest := str[start..end], str[start + 1..end];
      assert text[0] == c && text[1..] == rest;
      TrimLeftStep(text, c);
    }

    lemma KeepsFirst(c: char)
      requires Valid() && (start < end ==> str[start] != c)
      ensures TrimmedLeft(Text(), c) == Text()
    {
      hide TrimmedLeft, TrimmedRight;
      TrimLeftStep(Text(), c);
    }

    lemma {:induction false} TrimLeftStep(s: string, c: char)
      ensures TrimmedLeft(s, c) == if s != [] && s[0] == c then TrimmedLeft(s[1..], c) else s
    {
    }

    lemma {:induction false} TrimRightStep(s: string, c: char)
      ensures TrimmedRight(s, c) == if s != [] && s[|s| - 1] == c then TrimmedRight(s[..|s| - 1], c) else s
    {
    }

    /** The number at the beginning, cut to 32 bits. */
    method ToInt() returns (i: int)
      requires Valid()
      ensures i == IntOf(Text())
    {
      hide DecimalValue, LeadingDigits, NumberIn, AllDigits;
      var result := 0;
      var isNegative := false;
      ghost var text := Text();
      ghost var sign := if text != [] && (text[0] == '-' || text[0] == '+') then 1 else 0;
      ghost var body := text[sign..];
      ghost var seen := 0;
      NumberParts(text);
      NothingRead();
      var k := start;
      while k < end
        invariant start <= k <= end
        invariant seen == (if k == start then 0 else k - start - sign) && 0 <= seen <= |LeadingDigits(body)|
        invariant k == start ==> !isNegative
        invariant k > start ==> isNegative == (text[0] == '-')
        invariant result == DecimalValue(LeadingDigits(body)[..seen])
      {
        var c := str[k];
        assert c == text[k - start];
        if k == start && c == '-' {
          isNegative := true;
        } else if k == start && c == '+' {
        } else if '0' <= c <= '9' {
          DigitRead(body, seen);
          result := result * 10 + (c as int - '0' as int);
          seen := seen + 1;
        } else {
          assert seen < |body| && !IsDigit(body[seen]);
          NumberEnds(body, seen);
          break;
        }
        k := k + 1;
      }
      assert seen == |LeadingDigits(body)|;
      assert LeadingDigits(body)[..|LeadingDigits(body)|] == LeadingDigits(body);
      i := Narrow(if isNegative then -result else result);
    }

    lemma NumberParts(text: string)
      ensures var sign := if text != [] && (text[0] == '-' || text[0] == '+') then 1 else 0;
              var n := DecimalValue(LeadingDigits(text[sign..]));
              NumberIn(text) == if text != [] && text[0] == '-' then -n else n
    {
      assert text[0..] == text;
    }

    lemma NumberEnds(body: string, seen: nat)
      requires seen <= |LeadingDigits(body)| && seen < |body| && !IsDigit(body[seen])
      ensures seen == |LeadingDigits(body)|
    {
      var d := LeadingDigits(body);
      assert forall i | 0 <= i < |d| :: d[i] in d && d[i] == body[i];
    }

    lemma NothingRead()
      ensures DecimalValue([]) == 0
    {
    }

    lemma {:induction false} DigitRead(body: string, seen: nat)
      requires seen <= |LeadingDigits(body)| && seen < |body| && IsDigit(body[seen])
      ensures var d := LeadingDigits(body);
              seen < |d| && DecimalValue(d[..seen + 1]) == 10 * DecimalValue(d[..seen]) + (body[seen] as int - '0' as int)
    {
      var d := LeadingDigits(body);
      assert d[..seen + 1][..seen] == d[..seen];
    }
  }

  // ---------- scanning ----------

  /** The fields still to come at position `i` of a line. */
  function FieldsLeft(s: string, i: nat, inField: bool, start: nat, inString: bool): seq<string>
    requires i <= |s| && (inField ==> start < i)
  {
    if !inField then Fields(s[i..]) else FromOpen(s, i, start, CloseAt(s[i..], inString))
  }

  /** The fields from the open one on, if it is closed `e` characters from `i`. */
  function FromOpen(s: string, i: nat, start: nat, e: Option<nat>): seq<string>
    requires start < i && (e.Some? ==> i + e.value < |s|)
  {
    if e.None? then [] else [s[start + 1..i + e.value]] + Fields(s[i + e.value + 1..])
  }

  lemma FromOpenNext(s: string, i: nat, start: nat, e: Option<nat>)
    requires start < i && (e.Some? ==> i + 1 + e.value < |s|)
    ensures FromOpen(s, i, start, if e.None? then None else Some(e.value + 1)) == FromOpen(s, i + 1, start, e)
  {
  }

  lemma FieldsStart(s: string)
    ensures FieldsLeft(s, 0, false, 0, false) == Fields(s)
  {
    assert s[0..] == s;
  }

  lemma OpenCloses(s: string, i: nat, start: nat)
    requires start < i < |s|
    ensures FromOpen(s, i, start, Some(0)) == [s[start + 1..i]] + Fields(s[i + 1..])
  {
  }

  /** Outside a field only `<` matters. */
  lemma {:induction false} StepOutside(s: string, i: nat, start: nat)
    requires i < |s|
    ensures FieldsLeft(s, i, false, start, false) ==
            if s[i] == '<' then FieldsLeft(s, i + 1, true, i, false) else FieldsLeft(s, i + 1, false, start, false)
  {
    hide CloseAt, Fields;
    var t := s[i..];
    assert t[0] == s[i] && t[1..] == s[i + 1..];
    FieldsUnfold(t);
    var e := CloseAt(s[i + 1..], false);
    if s[i] == '<' && e.Some? {
      assert t[1..e.value + 1] == s[i + 1..i + 1 + e.value];
      assert t[e.value + 2..] == s[i + 1 + e.value + 1..];
    }
  }

  lemma {:induction false} FieldsUnfold(t: string)
    requires t != []
    ensures var e := CloseAt(t[1..], false);
            Fields(t) ==
            if t[0] != '<' then Fields(t[1..])
            else if e.None? then []
            else [t[1..e.value + 1]] + Fields(t[e.value + 2..])
  {
    hide CloseAt;
  }

  /** Inside a field quotes toggle, and `>` outside quotes closes. */
  lemma {:induction false} StepInside(s: string, i: nat, start: nat, inString: bool)
    requires i < |s| && start < i
    ensures FieldsLeft(s, i, true, start, inString) ==
            if s[i] == '"' then FieldsLeft(s, i + 1, true, start, !inString)
            else if s[i] == '>' && !inString then [s[start + 1..i]] + FieldsLeft(s, i + 1, false, start, false)
            else FieldsLeft(s, i + 1, true, start, inString)
  {
    hide Fields, CloseAt, FromOpen;
    CloseAtStep(s[i..], inString);
    assert s[i..][0] == s[i] && s[i..][1..] == s[i + 1..];
    if s[i] == '>' && !inString {
      OpenCloses(s, i, start);
    } else {
      FromOpenNext(s, i, start, CloseAt(s[i + 1..], if s[i] == '"' then !inString else inString));
    }
  }

  lemma {:induction false} CloseAtStep(t: string, quoted: bool)
    requires t != []
    ensures CloseAt(t, quoted) ==
            if t[0] == '>' && !quoted then Some(0)
            else
              var rest := CloseAt(t[1..], if t[0] == '"' then !quoted else quoted);
              if rest.None? then None else Some(rest.value + 1)
  {
  }

  lemma FieldsEnd(s: string, inField: bool, start: nat, inString: bool)
    requires inField ==> start < |s|
    ensures FieldsLeft(s, |s|, inField, start, inString) == []
  {
  }

  /** The columns after one cell was appended for each of the fields. */
  function Appended(atof: string -> FloatBits, cols: seq<Column>, fields: seq<string>): (after: seq<Column>)
    requires ColumnsKnown(cols)
    ensures |after| == |cols| && ColumnsKnown(after)
    ensures forall j | 0 <= j < |cols| :: after[j].typ == cols[j].typ
  {
    seq(|cols|, j requires 0 <= j < |cols| =>
      if j < |fields| then Column(cols[j].typ, cols[j].cells + [CellOf(atof, cols[j].typ, fields[j])]) else cols[j])
  }

  predicate ColumnsKnown(cols: seq<Column>) {
    forall j | 0 <= j < |cols| :: cols[j].typ in "BIFS"
  }

  function TypesOf(cols: seq<Column>): (types: seq<char>)
    ensures |types| == |cols|
  {
    seq(|cols|, j requires 0 <= j < |cols| => cols[j].typ)
  }

  /** Whether the parser gets over a line in the given mode. */
  predicate Scans(mode: ParserMode, cols: seq<Column>, fields: seq<string>) {
    mode.ParseTheFile? ==> LineOk(TypesOf(cols), fields)
  }

  lemma ScansOn(mode: ParserMode, cols: seq<Column>, fields: seq<string>, n: nat)
    requires n < |fields|
    ensures Scans(mode, cols, fields[..n + 1]) <==>
            Scans(mode, cols, fields[..n]) &&
            (mode.ParseTheFile? ==> n < |cols| && FieldOk(cols[n].typ, fields[n]))
    ensures !Scans(mode, cols, fields[..n + 1]) ==> !Scans(mode, cols, fields)
  {
    hide FieldOk;
    assert fields[..n + 1] == fields[..n] + [fields[n]];
  }

  lemma NoFields(atof: string -> FloatBits, mode: ParserMode, cols: seq<Column>, types: seq<char>, fields: seq<string>)
    requires ColumnsKnown(cols)
    ensures Appended(atof, cols, fields[..0]) == cols && GuessLine(types, fields[..0]) == types
    ensures Scans(mode, cols, fields[..0])
  {
  }

  function AllFields(lines: seq<string>): (fields: seq<seq<string>>)
    ensures |fields| == |lines|
  {
    seq(|lines|, i requires 0 <= i < |lines| => LineFields(lines[i]))
  }

  /** The first `n` lines, or all if there are fewer. */
  function FirstLines(lines: seq<string>, n: nat): (first: seq<string>)
    ensures first <= lines
  {
    lines[..Min(n, |lines|)]
  }

  /** The number of columns: the most fields in any of the lines looked at. */
  function GuessedWidth(content: string): nat {
    MaxFields(AllFields(FirstLines(Lines(content), GUESS_SCHEMA_LINES)))
  }

  function GuessedTypes(content: string): (types: seq<char>)
    ensures |types| == GuessedWidth(content)
  {
    GuessLines(Unguessed(GuessedWidth(content)), AllFields(FirstLines(Lines(content), GUESS_SCHEMA_LINES)))
  }

  lemma GuessedTypesKnown(content: string)
    ensures KnownTypes(GuessedTypes(content))
  {
    hide GuessLines, GuessedWidth;
    var lines := AllFields(FirstLines(Lines(content), GUESS_SCHEMA_LINES));
    forall j | 0 <= j < |GuessedTypes(content)| ensures GuessedTypes(content)[j] in "BIFS" {
      GuessIsGreatest(GuessedWidth(content), lines, j);
    }
  }

  lemma OneMoreLine(seen: seq<string>, line: string, types: seq<char>)
    ensures AllFields(seen + [line]) == AllFields(seen) + [LineFields(line)]
    ensures MaxFields(AllFields(seen + [line])) ==
            if MaxFields(AllFields(seen)) < |LineFields(line)| then |LineFields(line)| else MaxFields(AllFields(seen))
    ensures GuessLines(types, AllFields(seen + [line])) == GuessLine(GuessLines(types, AllFields(seen)), LineFields(line))
  {
    hide LineFields, GuessLine;
    var before, all := AllFields(seen), AllFields(seen + [line]);
    assert all == before + [LineFields(line)];
    assert all[..|all| - 1] == before;
  }

  lemma NoLines(types: seq<char>)
    ensures MaxFields(AllFields([])) == 0 && GuessLines(types, AllFields([])) == types
  {
  }

  lemma LineInSample(content: string, i: nat)
    requires i < |Lines(content)| && i < GUESS_SCHEMA_LINES
    ensures |LineFields(Lines(content)[i])| <= GuessedWidth(content)
  {
    hide LineFields, Lines;
    var all := AllFields(FirstLines(Lines(content), GUESS_SCHEMA_LINES));
    MaxFieldsIs(all);
    assert all[i] == LineFields(Lines(content)[i]);
  }

  lemma SampleGuessed(content: string)
    ensures KnownTypes(Unguessed(GuessedWidth(content)))
    ensures GuessedTypes(content) ==
            GuessLines(Unguessed(GuessedWidth(content)), AllFields(FirstLines(Lines(content), GUESS_SCHEMA_LINES)))
  {
    hide GuessedWidth;
  }

  lemma NothingParsed(atof: string -> FloatBits, types: seq<char>)
    requires KnownTypes(types)
    ensures LinesOk(types, []) && ColumnsOf(types, FileRows(atof, types, [])) == EmptyColumns(types)
  {
    NoRowsNoCells(types);
    assert FileRows(atof, types, []) == [];
  }

  lemma OneMoreParsed(atof: string -> FloatBits, types: seq<char>, seen: seq<string>, line: string)
    requires KnownTypes(types)
    ensures FileRows(atof, types, seen + [line]) ==
            FileRows(atof, types, seen) + [RowOf(atof, types, LineFields(line))]
    ensures LinesOk(types, seen + [line]) <==> LinesOk(types, seen) && LineOk(types, LineFields(line))
  {
    hide LineFields, LineOk;
    var more := seen + [line];
    assert more[|seen|] == line;
    assert forall i | 0 <= i < |seen| :: more[i] == seen[i];
  }

  lemma AllSeen(all: seq<string>, seen: seq<string>, left: seq<string>, n: nat)
    requires all == seen + left && |seen| <= n && (|seen| == n || left == [])
    ensures FirstLines(all, n) == seen && all[|seen|..] == left && (n <= |all| <==> |seen| == n)
  {
  }

  lemma StoppedBy(types: seq<char>, all: seq<string>, seen: seq<string>, line: string, left: seq<string>, n: nat)
    requires all == seen + left && left != [] && left[0] == line && |seen| < n && !LineOk(types, LineFields(line))
    ensures !LinesOk(types, FirstLines(all, n))
  {
    hide LineFields, LineOk;
    assert FirstLines(all, n)[|seen|] == line;
  }

  class SorParser {
    const atof: string -> FloatBits
    const reader: LineReader
    var columns: seq<Column>
    var typeGuesses: seq<char>
    var numColumns: nat

    /** At the start of a line. */
    ghost predicate Valid()
      reads reader, reader.file, reader.buf
      ensures Valid() ==> reader.Valid()
      ensures Valid() ==> reader.fileStart == 0 && reader.fileEnd == |reader.file.content|
    {
      reader.Valid() && reader.currentLine.None? && reader.fileStart == 0 && reader.fileEnd == |reader.file.content|
    }

    constructor (file: File, bufferSize: nat, atof: string -> FloatBits)
      requires file.Valid() && bufferSize > 0
      modifies file
      ensures this.atof == atof && reader.file == file && fresh(reader) && fresh(reader.buf)
      ensures Valid() && reader.LinesLeft() == Lines(file.content)
      ensures columns == [] && typeGuesses == [] && numColumns == 0
    {
      this.atof := atof;
      WholeFile(file.content, bufferSize);
      reader := new LineReader(file, 0, |file.content|, bufferSize);
      columns, typeGuesses, numColumns := [], [], 0;
    }

    /** Appends the value of a field to its column; fails for a field without column and for a string too long. */
    method AppendField(slice: StrSlice, fieldNum: nat) returns (ok: bool)
      requires slice.Valid() && ColumnsKnown(columns)
      modifies slice, this`columns
      ensures ok <==> fieldNum < |old(columns)| && FieldOk(old(columns)[fieldNum].typ, old(slice.Text()))
      ensures ok ==>
                var column := old(columns)[fieldNum];
                columns == old(columns)[fieldNum :=
                  Column(column.typ, column.cells + [CellOf(atof, column.typ, old(slice.Text()))])]
    {
      hide Trimmed, IntOf;
      slice.Trim(' ');
      if fieldNum >= |columns| {
        return false;
      }
      var column := columns[fieldNum];
      var cell := Missing;
      if slice.start == slice.end {
        TrimNothing('"');
      } else if column.typ == 'S' {
        slice.Trim('"');
        if slice.end - slice.start > MAX_STRING {
          return false;
        }
        cell := Str(slice.Text());
      } else {
        var i := slice.ToInt();
        cell := if column.typ == 'I' then Int(i)
                else if column.typ == 'F' then Float(atof(slice.Text()))
                else Bool(i == 1);
      }
      columns := columns[fieldNum := Column(column.typ, column.cells + [cell])];
      ok := true;
    }

    lemma TrimNothing(c: char)
      ensures Trimmed([], c) == []
    {
    }

    /** Whether a slice holds a numeric character, and whether it holds a dot. */
    method Look(slice: StrSlice) returns (isNumeric: bool, hasDot: bool)
      requires slice.Valid()
      ensures isNumeric == SomeNumeric(slice.Text()) && hasDot == ('.' in slice.Text())
    {
      isNumeric, hasDot := false, false;
      ghost var text := slice.Text();
      for i := 0 to slice.end - slice.start
        invariant isNumeric == SomeNumeric(text[..i]) && hasDot == ('.' in text[..i])
      {
        assert text[..i + 1] == text[..i] + [text[i]];
        SomeNumericMore(text[..i], text[i]);
        var c := slice.str[slice.start + i];
        if IsNumeric(c) {
          isNumeric := true;
          if c == '.' {
            hasDot := true;
          }
        }
      }
      assert text[..|text|] == text;
    }

    lemma SomeNumericMore(s: string, c: char)
      ensures SomeNumeric(s + [c]) == (SomeNumeric(s) || IsNumeric(c))
    {
      assert (s + [c])[|s|] == c;
      assert forall i | 0 <= i < |s| :: (s + [c])[i] == s[i];
    }

    /** Raises the guess for a column to cover the field. */
    method GuessFieldType(slice: StrSlice, fieldNum: nat)
      requires slice.Valid() && fieldNum < |typeGuesses| && KnownTypes(typeGuesses)
      modifies slice, this`typeGuesses
      ensures typeGuesses == old(typeGuesses)[fieldNum := GuessField(old(typeGuesses)[fieldNum], old(slice.Text()))]
      ensures KnownTypes(typeGuesses)
    {
      hide Trimmed, IntOf, SomeNumeric;
      slice.Trim(' ');
      if slice.start == slice.end {
        return;
      }
      var isNumeric, hasDot := Look(slice);
      NumericDot(slice.Text());
      var typ := typeGuesses[fieldNum];
      if typ != 'S' {
        if isNumeric && !hasDot {
          var val := slice.ToInt();
          if (val == 0 || val == 1) && typ != 'I' && typ != 'F' {
            typeGuesses := typeGuesses[fieldNum := 'B'];
          } else if typ != 'F' {
            typeGuesses := typeGuesses[fieldNum := 'I'];
          }
        } else if isNumeric && hasDot {
          typeGuesses := typeGuesses[fieldNum := 'F'];
        } else {
          typeGuesses := typeGuesses[fieldNum := 'S'];
        }
      }
    }

    lemma NumericDot(t: string)
      ensures '.' in t ==> SomeNumeric(t)
    {
    }

    /** Hands a field to whatever the mode wants done with it. */
    method TakeField(slice: StrSlice, mode: ParserMode, numFields: nat, ghost fields: seq<string>,
                     ghost cols: seq<Column>, ghost types: seq<char>) returns (ok: bool)
      requires slice.Valid() && numFields < |fields| && slice.Text() == fields[numFields]
      requires ColumnsKnown(cols) && KnownTypes(types) && (mode.DetectSchema? ==> |fields| <= |types|)
      requires Scans(mode, cols, fields[..numFields])
      requires columns == if mode.ParseTheFile? then Appended(atof, cols, fields[..numFields]) else cols
      requires typeGuesses == if mode.DetectSchema? then GuessLine(types, fields[..numFields]) else types
      requires KnownTypes(typeGuesses)
      modifies slice, this`columns, this`typeGuesses
      ensures ok <==> Scans(mode, cols, fields[..numFields + 1])
      ensures ok ==> columns == if mode.ParseTheFile? then Appended(atof, cols, fields[..numFields + 1]) else cols
      ensures ok ==> typeGuesses == if mode.DetectSchema? then GuessLine(types, fields[..numFields + 1]) else types
      ensures ok ==> KnownTypes(typeGuesses)
    {
      hide FieldOk, CellOf, GuessField, Scans;
      ok := true;
      ScansOn(mode, cols, fields, numFields);
      if mode.DetectSchema? {
        GuessFieldType(slice, numFields);
      } else if mode.ParseTheFile? {
        ok := AppendField(slice, numFields);
      }
    }

    /** Finds the fields of a line, which ends at its first NUL, and counts them. */
    method ScanLine(line: string, mode: ParserMode) returns (numFields: Option<nat>)
      requires ColumnsKnown(columns) && KnownTypes(typeGuesses)
      requires mode.DetectSchema? ==> |LineFields(line)| <= |typeGuesses|
      modifies this`columns, this`typeGuesses
      ensures numFields.Some? <==> Scans(mode, old(columns), LineFields(line))
      ensures numFields.Some? ==>
                && numFields.value == |LineFields(line)|
                && columns == (if mode.ParseTheFile? then Appended(atof, old(columns), LineFields(line)) else old(columns))
                && typeGuesses ==
                   (if mode.DetectSchema? then GuessLine(old(typeGuesses), LineFields(line)) else old(typeGuesses))
                && KnownTypes(typeGuesses)
    {
      hide Appended, GuessLine, Scans, Fields, FieldsLeft, CStr, KnownTypes, ColumnsKnown, FieldOk;
      var text := CStr(line);
      ghost var fields, cols, types := Fields(text), columns, typeGuesses;
      var n, thisFieldStart, inField, inString := 0, 0, false, false;
      FieldsStart(text);
      NoFields(atof, mode, cols, types, fields);
      for i := 0 to |text|
        invariant n <= |fields| && (inField ==> thisFieldStart < i) && (!inField ==> !inString)
        invariant fields[n..] == FieldsLeft(text, i, inField, thisFieldStart, inString)
        invariant Scans(mode, cols, fields[..n])
        invariant columns == if mode.ParseTheFile? then Appended(atof, cols, fields[..n]) else cols
        invariant typeGuesses == if mode.DetectSchema? then GuessLine(types, fields[..n]) else types
        invariant KnownTypes(typeGuesses)
      {
        var c := text[i];
        if !inField {
          StepOutside(text, i, thisFieldStart);
          if c == '<' {
            inField := true;
            thisFieldStart := i;
          }
        } else {
          StepInside(text, i, thisFieldStart, inString);
          if c == '"' {
            inString := !inString;
          } else if c == '>' && !inString {
            assert fields[n] == fields[n..][0] && fields[n + 1..] == fields[n..][1..];
            ScansOn(mode, cols, fields, n);
            var slice := new StrSlice(text, thisFieldStart + 1, i);
            var ok := TakeField(slice, mode, n, fields, cols, types);
            if !ok {
              return None;
            }
            inField := false;
            n := n + 1;
          }
        }
      }
      FieldsEnd(text, inField, thisFieldStart, inString);
      assert fields[..n] == fields;
      numFields := Some(n);
    }

    /** The most fields on any of the first lines. */
    method DetectColumns() returns (maxColumns: nat)
      requires Valid() && ColumnsKnown(columns) && KnownTypes(typeGuesses)
      requires reader.LinesLeft() == Lines(reader.file.content)
      modifies this`columns, this`typeGuesses, reader, reader.file, reader.buf
      ensures Valid() && columns == old(columns) && typeGuesses == old(typeGuesses)
      ensures maxColumns == GuessedWidth(reader.file.content)
    {
      hide Lines, AllFields, MaxFields, ColumnsKnown, KnownTypes, LineReader.LinesLeft, LineReader.Valid, File.Valid,
        LineFields;
      maxColumns := 0;
      ghost var all := Lines(reader.file.content);
      ghost var seen: seq<string> := [];
      NoLines([]);
      var i := 0;
      while i < GUESS_SCHEMA_LINES
        invariant Valid() && columns == old(columns) && typeGuesses == old(typeGuesses)
        invariant all == seen + reader.LinesLeft()
        invariant |seen| == i <= GUESS_SCHEMA_LINES && maxColumns == MaxFields(AllFields(seen))
      {
        var line := reader.ReadLine();
        if line.None? {
          break;
        }
        var n := ScanLine(line.value, DetectNumColumns);
        OneMoreLine(seen, line.value, []);
        if n.value > maxColumns {
          maxColumns := n.value;
        }
        seen := seen + [line.value];
        i := i + 1;
      }
      assert seen == FirstLines(all, GUESS_SCHEMA_LINES);
    }

    /** Goes back to the first line. */
    method Rewind()
      requires Valid()
      modifies reader, reader.file
      ensures Valid() && reader.LinesLeft() == Lines(reader.file.content)
    {
      WholeFile(reader.file.content, reader.buf.Length);
      reader.Reset();
    }

    /** Guesses the types from the same lines. */
    method DetectTypes()
      requires Valid() && ColumnsKnown(columns) && typeGuesses == Unguessed(GuessedWidth(reader.file.content))
      requires reader.LinesLeft() == Lines(reader.file.content)
      modifies this`columns, this`typeGuesses, reader, reader.file, reader.buf
      ensures Valid() && columns == old(columns)
      ensures typeGuesses == GuessedTypes(reader.file.content) && KnownTypes(typeGuesses)
    {
      hide Lines, AllFields, MaxFields, ColumnsKnown, LineReader.LinesLeft, LineReader.Valid, File.Valid,
        LineFields, GuessLine, GuessLines, KnownTypes, GuessedTypes, GuessedWidth, Unguessed;
      ghost var all, types := Lines(reader.file.content), typeGuesses;
      ghost var seen: seq<string> := [];
      NoLines(types);
      SampleGuessed(reader.file.content);
      var i := 0;
      while i < GUESS_SCHEMA_LINES
        invariant Valid() && columns == old(columns) && KnownTypes(typeGuesses)
        invariant all == seen + reader.LinesLeft()
        invariant |seen| == i <= GUESS_SCHEMA_LINES && typeGuesses == GuessLines(types, AllFields(seen))
      {
        var line := reader.ReadLine();
        if line.None? {
          break;
        }
        LineInSample(reader.file.content, i);
        OneMoreLine(seen, line.value, types);
        var _ := ScanLine(line.value, DetectSchema);
        seen := seen + [line.value];
        i := i + 1;
      }
      assert seen == FirstLines(all, GUESS_SCHEMA_LINES);
    }

    /** Sets up one empty column per guessed type; fails if there are no fields at all. */
    method GuessSchema() returns (types: Option<seq<char>>)
      requires Valid() && columns == [] && typeGuesses == []
      requires reader.LinesLeft() == Lines(reader.file.content)
      modifies this, reader, reader.file, reader.buf
      ensures Valid() && reader.LinesLeft() == Lines(reader.file.content)
      ensures types.Some? <==> GuessedWidth(reader.file.content) > 0
      ensures types.Some? ==>
                && types.value == GuessedTypes(reader.file.content) && KnownTypes(types.value)
                && columns == EmptyColumns(types.value) && ColumnsKnown(columns) && KnownTypes(typeGuesses)
                && numColumns == |types.value|
    {
      hide LineReader.LinesLeft, LineReader.Valid, File.Valid, GuessedWidth, GuessedTypes;
      var maxColumns := DetectColumns();
      if maxColumns == 0 {
        Rewind();
        return None;
      }
      Rewind();
      numColumns := maxColumns;
      typeGuesses := Unguessed(maxColumns);
      DetectTypes();
      InitColumns();
      Rewind();
      types := Some(typeGuesses);
    }

    /** One empty column per guessed type. */
    method InitColumns()
      requires numColumns == |typeGuesses| && KnownTypes(typeGuesses)
      modifies this`columns
      ensures columns == EmptyColumns(typeGuesses) && ColumnsKnown(columns)
    {
      columns := [];
      for i := 0 to numColumns
        invariant columns == EmptyColumns(typeGuesses[..i])
      {
        columns := columns + [Column(typeGuesses[i], [])];
      }
      assert typeGuesses[..numColumns] == typeGuesses;
    }

    /** Missing values for the columns a line did not reach. */
    method Pad(scannedFields: nat)
      requires scannedFields <= numColumns == |columns| && ColumnsKnown(columns)
      modifies this`columns
      ensures |columns| == |old(columns)| && ColumnsKnown(columns)
      ensures forall j | 0 <= j < |columns| ::
                columns[j] == if j < scannedFields then old(columns)[j]
                              else Column(old(columns)[j].typ, old(columns)[j].cells + [Missing])
    {
      for i := scannedFields to numColumns
        invariant |columns| == numColumns && ColumnsKnown(columns)
        invariant forall j | 0 <= j < i ::
                    columns[j] == if j < scannedFields then old(columns)[j]
                                  else Column(old(columns)[j].typ, old(columns)[j].cells + [Missing])
        invariant forall j | i <= j < numColumns :: columns[j] == old(columns)[j]
      {
        columns := columns[i := Column(columns[i].typ, columns[i].cells + [Missing])];
      }
    }

    /** Adds the row of a line to the columns. */
    method ParseLine(line: string, ghost types: seq<char>, ghost rows: seq<Row>) returns (ok: bool)
      requires KnownTypes(types) && Rectangular(types, rows) && columns == ColumnsOf(types, rows)
      requires numColumns == |types| && KnownTypes(typeGuesses)
      modifies this`columns, this`typeGuesses
      ensures ok <==> LineOk(types, LineFields(line))
      ensures ok ==> KnownTypes(typeGuesses)
      ensures ok ==> columns == ColumnsOf(types, rows + [RowOf(atof, types, LineFields(line))])
    {
      hide LineFields, CellOf, FieldOk;
      assert TypesOf(columns) == types;
      var scanned := ScanLine(line, ParseTheFile);
      ok := scanned.Some?;
      if ok {
        Pad(scanned.value);
        ghost var row := RowOf(atof, types, LineFields(line));
        forall j | 0 <= j < |types| ensures columns[j] == ColumnOf(types, rows + [row], j) {
          var cells := ColumnOf(types, rows, j).cells;
          assert ColumnOf(types, rows + [row], j).cells == cells + [row[j]];
        }
      }
    }

    /**
     Parses one chunk of lines. The columns stay aligned with the lines; the
     result tells whether the chunk was filled, and fails when a line stops
     the parser.
     */
    method ParseFile(ghost types: seq<char>) returns (full: Option<bool>)
      requires Valid() && KnownTypes(types) && columns == EmptyColumns(types)
      requires numColumns == |types| && KnownTypes(typeGuesses)
      modifies this`columns, this`typeGuesses, reader, reader.file, reader.buf
      ensures Valid()
      ensures var all := old(reader.LinesLeft());
              var part := FirstLines(all, CHUNK_SIZE);
              && (full.Some? <==> LinesOk(types, part))
              && (full.Some? ==>
                    && full.value == (CHUNK_SIZE <= |all|) && KnownTypes(typeGuesses)
                    && columns == ColumnsOf(types, FileRows(atof, types, part))
                    && reader.LinesLeft() == all[|part|..])
    {
      hide Lines, ColumnsOf, KnownTypes, LineReader.LinesLeft, LineReader.Valid, File.Valid, LineFields, RowOf, LineOk,
        Rectangular, EmptyColumns, FileRows, LinesOk, FirstLines;
      ghost var all := reader.LinesLeft();
      ghost var seen: seq<string> := [];
      NothingParsed(atof, types);
      var numLines := 0;
      while numLines < CHUNK_SIZE
        invariant Valid() && KnownTypes(typeGuesses)
        invariant all == seen + reader.LinesLeft()
        invariant |seen| == numLines <= CHUNK_SIZE && LinesOk(types, seen)
        invariant columns == ColumnsOf(types, FileRows(atof, types, seen))
      {
        ghost var left := reader.LinesLeft();
        var line := reader.ReadLine();
        if line.None? {
          AllSeen(all, seen, left, CHUNK_SIZE);
          return Some(false);
        }
        OneMoreParsed(atof, types, seen, line.value);
        var ok := ParseLine(line.value, types, FileRows(atof, types, seen));
        if !ok {
          StoppedBy(types, all, seen, line.value, left, CHUNK_SIZE);
          return None;
        }
        seen := seen + [line.value];
        numLines := numLines + 1;
      }
      AllSeen(all, seen, reader.LinesLeft(), CHUNK_SIZE);
      full := Some(true);
    }
  }
}
