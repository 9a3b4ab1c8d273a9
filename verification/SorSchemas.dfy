/**
 What the type guess comes to, said of the characters of the fields alone, and
 exactly when the types of a printed frame are guessed back from its text.
 */
module SorSchemas {
  import opened Params
  import opened Messages
  import opened Text
  import opened Wire
  import opened Layout
  import opened RowObjects
  import opened LineReaders
  import opened SorText
  import opened SorFields
  import opened SorValues
  import opened SorGuess
  import opened SorParsers
  import opened SorPrint

  // ---------- one field ----------

  lemma LeftKeepsOthers(s: string, c: char, x: char)
    requires x != c
    ensures x in TrimmedLeft(s, c) <==> x in s
  {
    hide TrimmedLeft;
    var left := TrimmedLeft(s, c);
    assert s == s[..|s| - |left|] + left;
    assert x !in s[..|s| - |left|];
  }

  lemma TrimKeepsOthers(s: string, c: char, x: char)
    requires x != c
    ensures x in Trimmed(s, c) <==> x in s
  {
    hide TrimmedLeft, TrimmedRight;
    LeftKeepsOthers(s, c, x);
    var left := TrimmedLeft(s, c);
    var right := TrimmedRight(left, c);
    assert left == right + left[|right|..];
    assert x !in left[|right|..];
  }

  lemma TrimKeepsNumeric(f: string)
    ensures SomeNumeric(Trimmed(f, ' ')) <==> SomeNumeric(f)
  {
    hide Trimmed;
    var t := Trimmed(f, ' ');
    if SomeNumeric(t) {
      var i :| 0 <= i < |t| && IsNumeric(t[i]);
      TrimKeepsOthers(f, ' ', t[i]);
      assert t[i] in f;
    }
    if SomeNumeric(f) {
      var i :| 0 <= i < |f| && IsNumeric(f[i]);
      TrimKeepsOthers(f, ' ', f[i]);
      assert f[i] in t;
    }
  }

  lemma NumericChars(s: string)
    ensures SomeNumeric(s) <==> exists x <- s :: x in "+-.0123456789"
  {
    forall x: char ensures IsNumeric(x) <==> x in "+-.0123456789" {
      OneOf(x);
    }
    if SomeNumeric(s) {
      var i :| 0 <= i < |s| && IsNumeric(s[i]);
      assert s[i] in s;
    }
    if x :| x in s && x in "+-.0123456789" {
      var i :| 0 <= i < |s| && s[i] == x;
    }
  }

  lemma OneOf(x: char)
    ensures IsNumeric(x) <==> x in "+-.0123456789"
  {
  }

  /** A field with a number that is neither 0 nor 1. */
  predicate BeyondBool(f: string) {
    IntOf(Trimmed(f, ' ')) !in {0, 1}
  }

  /**
   A blank field suggests nothing, a field without digit, sign or dot a
   string, a field with a dot a float, and any other an integer, or a boolean
   if it is read as 0 or 1.
   */
  lemma FieldSuggests(f: string)
    ensures ClassOf(f) == None <==> Blank(f)
    ensures ClassOf(f) == Some('S') <==> !Blank(f) && !SomeNumeric(f)
    ensures ClassOf(f) == Some('F') <==> '.' in f
    ensures ClassOf(f) == Some('I') <==> SomeNumeric(f) && '.' !in f && BeyondBool(f)
    ensures ClassOf(f) == Some('B') <==> SomeNumeric(f) && '.' !in f && !BeyondBool(f)
  {
    hide Trimmed, IntOf, Blank;
    BlankTrims(f);
    TrimKeepsNumeric(f);
    TrimKeepsOthers(f, ' ', '.');
    assert '.' in f ==> SomeNumeric(f);
    assert Trimmed(f, ' ') == [] ==> !SomeNumeric(Trimmed(f, ' '));
  }

  /** A printed number suggests a boolean if it is 0 or 1, and an integer otherwise. */
  lemma NumberSuggests(i: int)
    requires -INT_LIMIT <= i < INT_LIMIT
    ensures ClassOf(IntText(i)) == Some(if i == 0 || i == 1 then 'B' else 'I')
  {
    hide Trimmed, IntOf, IntText, Blank, SomeNumeric;
    FieldSuggests(IntText(i));
    IntTextIsWord(i);
    IntRoundTrip(i);
    var t := IntText(i);
    assert SomeNumeric(t) by { SomeDigit(t); }
    assert forall x <- t :: x != '.';
  }

  lemma SomeDigit(t: string)
    requires t != [] && forall x <- t :: IsDigit(x) || x == '-'
    ensures SomeNumeric(t)
  {
    assert IsNumeric(t[0]);
  }

  // ---------- a column ----------

  /** Some field of column `j` is a word without digit, sign or dot. */
  ghost predicate HasWord(lines: seq<seq<string>>, j: nat) {
    exists l <- lines :: j < |l| && !Blank(l[j]) && !SomeNumeric(l[j])
  }

  ghost predicate HasDot(lines: seq<seq<string>>, j: nat) {
    exists l <- lines :: j < |l| && '.' in l[j]
  }

  /** Some field of column `j` is a number without dot, neither 0 nor 1. */
  ghost predicate HasBigNumber(lines: seq<seq<string>>, j: nat) {
    exists l <- lines :: j < |l| && SomeNumeric(l[j]) && '.' !in l[j] && BeyondBool(l[j])
  }

  lemma SuggestionsAre(lines: seq<seq<string>>, j: nat)
    ensures Suggested(lines, j, 'S') <==> HasWord(lines, j)
    ensures Suggested(lines, j, 'F') <==> HasDot(lines, j)
    ensures Suggested(lines, j, 'I') <==> HasBigNumber(lines, j)
  {
    hide ClassOf, Blank, SomeNumeric, BeyondBool;
    forall l <- lines | j < |l|
      ensures ClassOf(l[j]) == Some('S') <==> !Blank(l[j]) && !SomeNumeric(l[j])
      ensures ClassOf(l[j]) == Some('F') <==> '.' in l[j]
      ensures ClassOf(l[j]) == Some('I') <==> SomeNumeric(l[j]) && '.' !in l[j] && BeyondBool(l[j])
    {
      FieldSuggests(l[j]);
    }
  }

  /** One word makes a column of strings; else one dot of floats; else one number but 0 and 1 of integers. */
  lemma GuessMeans(n: nat, lines: seq<seq<string>>, j: nat)
    requires j < n
    ensures GuessLines(Unguessed(n), lines)[j] ==
            if HasWord(lines, j) then 'S'
            else if HasDot(lines, j) then 'F'
            else if HasBigNumber(lines, j) then 'I'
            else 'B'
  {
    hide GuessLines, Suggested, HasWord, HasDot, HasBigNumber;
    GuessIsGreatest(n, lines, j);
    SuggestionsAre(lines, j);
    var guess := GuessLines(Unguessed(n), lines)[j];
    assert Suggested(lines, j, 'S') ==> Rank('S') <= Rank(guess);
    assert Suggested(lines, j, 'F') ==> Rank('F') <= Rank(guess);
    assert Suggested(lines, j, 'I') ==> Rank('I') <= Rank(guess);
  }

  // ---------- printed frames ----------

  /** What the text of a value shows of its characters. */
  predicate Tells(ftoa: FloatBits -> string, t: string, c: Cell) {
    && !Blank(t) && !c.Missing? && (c.Float? ==> |c.bits| == 4)
    && (SomeNumeric(t) <==> (c.Str? ==> SomeNumeric(c.s)) && (c.Float? ==> SomeNumeric(ftoa(c.bits))))
    && ('.' in t <==> (c.Str? && '.' in c.s) || (c.Float? && '.' in ftoa(c.bits)))
    && (c.Bool? || c.Int? ==> (BeyondBool(t) <==> c.Int? && c.i !in {0, 1}))
  }

  lemma PrintedTells(atof: string -> FloatBits, ftoa: FloatBits -> string, c: Cell)
    requires PrintsWords(ftoa) && Survives(atof, ftoa, c)
    requires c.Int? ==> -INT_LIMIT <= c.i < INT_LIMIT
    ensures Tells(ftoa, FieldText(ftoa, c), c)
  {
    hide Contained, PrintsWords, IntText, ClassOf;
    var t := FieldText(ftoa, c);
    match c {
      case Bool(b) =>
        BoolText(ftoa, b);
        NumberSuggests(if b then 1 else 0);
        FieldSuggests(t);
      case Int(i) =>
        NumberSuggests(i);
        FieldSuggests(t);
      case Float(bits) =>
        assert IsWord(t) by { NumbersAreWords(c, ftoa); }
        WordNotBlank(t);
      case Str(s) =>
        assert CStr(s) == s;
        QuotedShows(s);
    }
  }

  lemma WordNotBlank(t: string)
    requires IsWord(t)
    ensures !Blank(t)
  {
    assert t[0] in t;
  }

  lemma QuotedShows(s: string)
    ensures !Blank(Quoted(s)) && (SomeNumeric(Quoted(s)) <==> SomeNumeric(s)) && ('.' in Quoted(s) <==> '.' in s)
  {
    var t := Quoted(s);
    assert t[0] == '"' && t[0] in t;
    assert forall i | 0 <= i < |s| :: t[i + 1] == s[i];
    assert t[|s| + 1] == '"';
  }

  /** The values of a column give its type away; all a column of booleans needs is to be one. */
  ghost predicate Shows(ftoa: FloatBits -> string, typ: char, cells: seq<Cell>) {
    match typ
    case 'I' => exists c <- cells :: c.Int? && c.i !in {0, 1}
    case 'F' =>
      && (exists c <- cells :: c.Float? && |c.bits| == 4 && '.' in ftoa(c.bits))
      && (forall c <- cells :: c.Float? && |c.bits| == 4 ==> SomeNumeric(ftoa(c.bits)))
    case 'S' => exists c <- cells :: c.Str? && !SomeNumeric(c.s)
    case _ => true
  }

  function CellsAt(types: seq<char>, rows: seq<Row>, j: nat): (cells: seq<Cell>)
    requires RowsFit(types, rows) && j < |types|
    ensures |cells| == |rows|
  {
    seq(|rows|, i requires 0 <= i < |rows| => assert RowFits(types, rows[i]); rows[i][j])
  }

  /** The guess from texts that tell their values. */
  lemma ColumnTells(ftoa: FloatBits -> string, typ: char, n: nat, cells: seq<Cell>, lines: seq<seq<string>>, j: nat)
    requires typ in "BIFS" && j < n && |lines| == |cells|
    requires forall i | 0 <= i < |cells| :: CellFits(typ, cells[i]) && j < |lines[i]| && Tells(ftoa, lines[i][j], cells[i])
    ensures GuessLines(Unguessed(n), lines)[j] == typ <==> Shows(ftoa, typ, cells)
  {
    hide GuessLines, SomeNumeric, Blank, BeyondBool;
    GuessMeans(n, lines, j);
  }

  /** The type of a printed column is guessed back if and only if its values give it away. */
  lemma ColumnGuess(atof: string -> FloatBits, ftoa: FloatBits -> string, types: seq<char>, rows: seq<Row>,
                    lines: seq<seq<string>>, j: nat)
    requires PrintsWords(ftoa) && RowsFit(types, rows) && j < |types| && |lines| == |rows|
    requires forall i | 0 <= i < |rows| :: AllSurvive(atof, ftoa, rows[i]) && lines[i] == FieldTexts(ftoa, rows[i])
    ensures GuessLines(Unguessed(|types|), lines)[j] == types[j] <==> Shows(ftoa, types[j], CellsAt(types, rows, j))
  {
    hide GuessLines, PrintsWords, FieldText, Survives, Tells, Shows, CellFits;
    var cells := CellsAt(types, rows, j);
    forall i | 0 <= i < |rows|
      ensures CellFits(types[j], cells[i]) && j < |lines[i]| && Tells(ftoa, lines[i][j], cells[i])
    {
      assert RowFits(types, rows[i]) && Survives(atof, ftoa, rows[i][j]);
      FitsLimit(types[j], cells[i]);
      PrintedTells(atof, ftoa, cells[i]);
    }
    ColumnTells(ftoa, types[j], |types|, cells, lines, j);
  }

  lemma FitsLimit(typ: char, c: Cell)
    requires CellFits(typ, c)
    ensures c.Int? ==> -INT_LIMIT <= c.i < INT_LIMIT
  {
  }

  /** The rows that the guess looks at. */
  function FirstRows(rows: seq<Row>): (first: seq<Row>)
    ensures first <= rows
  {
    rows[..Min(500, |rows|)]
  }

  /** The printed lines that the guess looks at hold the texts of the first rows. */
  lemma FirstFields(atof: string -> FloatBits, ftoa: FloatBits -> string, types: seq<char>, rows: seq<Row>)
    requires PrintsWords(ftoa) && RowsFit(types, rows) && RowsSurvive(atof, ftoa, rows)
    ensures var lines := AllFields(FirstLines(Lines(PrintedText(ftoa, types, rows)), GUESS_SCHEMA_LINES));
            && |lines| == |FirstRows(rows)|
            && forall i | 0 <= i < |lines| ::
                 AllSurvive(atof, ftoa, rows[i]) && AllPrintable(rows[i]) && lines[i] == FieldTexts(ftoa, rows[i])
  {
    hide PrintsWords, LineText, Lines, Unlines, LineFields, Held, CellFits, Survives, FieldText, IsLine;
    var texts := LinesText(ftoa, types, rows);
    forall i | 0 <= i < |rows|
      ensures AllPrintable(rows[i]) && texts[i] == LineText(ftoa, rows[i]) && OneLine(rows[i])
      ensures IsLine(texts[i]) && LineFields(texts[i]) == FieldTexts(ftoa, rows[i])
    {
      SurvivorsPrint(atof, ftoa, types, rows[..i + 1]);
      HeldFits(types, rows[..i + 1]);
      assert HeldRows(types, rows[..i + 1])[i] == rows[i];
      assert rows[..i + 1][..i + 1] == rows[..i + 1];
      SurvivorFields(atof, ftoa, rows[i]);
      SurvivorLine(atof, ftoa, rows[i]);
    }
    LinesBack(texts);
  }

  lemma SurvivorFields(atof: string -> FloatBits, ftoa: FloatBits -> string, r: Row)
    requires PrintsWords(ftoa) && AllPrintable(r) && AllSurvive(atof, ftoa, r)
    ensures LineFields(LineText(ftoa, r)) == FieldTexts(ftoa, r)
  {
    hide PrintsWords, LineText, Fields, FieldTexts, Survives, Delimits;
    forall j | 0 <= j < |r| ensures Delimits(r[j]) {
      SurvivorsDelimit(atof, ftoa, r[j]);
    }
    LineScans(ftoa, r);
    LineIsClean(ftoa, r);
    CleanLine(LineText(ftoa, r));
  }

  /** All columns give their types away in the first 500 rows. */
  ghost predicate TypesShow(ftoa: FloatBits -> string, types: seq<char>, rows: seq<Row>)
    requires RowsFit(types, rows)
  {
    forall j | 0 <= j < |types| :: Shows(ftoa, types[j], CellsAt(types, FirstRows(rows), j))
  }

  lemma WidthGuess(ftoa: FloatBits -> string, types: seq<char>, lines: seq<seq<string>>)
    requires lines != [] && forall l <- lines :: |l| == |types|
    ensures MaxFields(lines) == |types|
  {
    MaxFieldsIs(lines);
    assert lines[0] in lines;
  }

  /** From the text of a printed frame whose values survive, its types are guessed back exactly if they show. */
  lemma PrintThenGuess(atof: string -> FloatBits, ftoa: FloatBits -> string, types: seq<char>, rows: seq<Row>)
    requires PrintsWords(ftoa) && RowsFit(types, rows) && rows != [] && RowsSurvive(atof, ftoa, rows)
    ensures |GuessedTypes(PrintedText(ftoa, types, rows))| == |types|
    ensures GuessedTypes(PrintedText(ftoa, types, rows)) == types <==> TypesShow(ftoa, types, rows)
  {
    hide PrintsWords, PrintedText, Lines, GuessLines, FieldTexts, Survives, Shows;
    var first := FirstRows(rows);
    var lines := AllFields(FirstLines(Lines(PrintedText(ftoa, types, rows)), GUESS_SCHEMA_LINES));
    FirstFields(atof, ftoa, types, rows);
    forall i | 0 <= i < |lines| ensures |lines[i]| == |types| {
      assert RowFits(types, rows[i]);
      assert |FieldTexts(ftoa, rows[i])| == |rows[i]|;
    }
    WidthGuess(ftoa, types, lines);
    forall j | 0 <= j < |types|
      ensures GuessLines(Unguessed(|types|), lines)[j] == types[j] <==> Shows(ftoa, types[j], CellsAt(types, first, j))
    {
      ColumnGuess(atof, ftoa, types, first, lines, j);
    }
  }

  /**
   Printed, then loaded with the guessed types: a frame comes back with its
   types and rows if and only if its values survive and its types show.
   */
  lemma PrintThenLoad(atof: string -> FloatBits, ftoa: FloatBits -> string, types: seq<char>, rows: seq<Row>)
    requires PrintsWords(ftoa) && RowsFit(types, rows) && rows != []
    ensures GuessedTypes(PrintedText(ftoa, types, rows)) == types && ComesBack(atof, ftoa, types, rows) <==>
            RowsSurvive(atof, ftoa, rows) && TypesShow(ftoa, types, rows)
  {
    hide PrintsWords, PrintedText, ComesBack, RowsSurvive, TypesShow, RowsFit, GuessedTypes;
    PrintThenParse(atof, ftoa, types, rows);
    if RowsSurvive(atof, ftoa, rows) {
      PrintThenGuess(atof, ftoa, types, rows);
    }
  }

  /** More fields than columns stop the parser, and nothing else does for numbers. */
  lemma TooManyFields(ftoa: FloatBits -> string, types: seq<char>, vals: Row)
    requires PrintsWords(ftoa) && AllPrintable(vals) && 'S' !in types
    requires forall j | 0 <= j < |vals| :: vals[j].Int?
    ensures LineOk(types, LineFields(LineText(ftoa, vals))) <==> |vals| <= |types|
  {
    hide PrintsWords, LineText, Fields, FieldText;
    LineScans(ftoa, vals);
    LineIsClean(ftoa, vals);
    CleanLine(LineText(ftoa, vals));
    assert forall j | 0 <= j < |types| :: types[j] in types;
  }
}
