/** Printing rows as SoR text, and exactly when scanning the text gives the rows back. */
module SorPrint {
  import opened Params
  import opened Messages
  import opened Text
  import opened Wire
  import opened Layout
  import opened RowObjects
  import opened LineReaders
  import opened SorText
  import opened SorFields

  // ---------- what is printed ----------

  /** The values a row object can hold: a column of strings may hold none. */
  predicate ValFits(typ: char, c: Cell) {
    CellFits(typ, c) && (c.Missing? ==> typ == 'S')
  }

  predicate ValsFit(types: seq<char>, vals: Row) {
    |vals| == |types| && KnownTypes(types) && forall j | 0 <= j < |types| :: ValFits(types[j], vals[j])
  }

  predicate Printable(c: Cell) {
    c.Float? ==> |c.bits| == 4
  }

  predicate AllPrintable(vals: Row) {
    forall j | 0 <= j < |vals| :: Printable(vals[j])
  }

  /** The text between the brackets; strings are printed as C strings, in quotes. */
  function FieldText(ftoa: FloatBits -> string, c: Cell): string
    requires Printable(c)
  {
    match c
    case Missing => Quoted("")
    case Bool(b) => if b then "1" else "0"
    case Int(i) => IntText(i)
    case Float(bits) => ftoa(bits)
    case Str(s) => Quoted(CStr(s))
  }

  function LineText(ftoa: FloatBits -> string, vals: Row): string
    requires AllPrintable(vals)
  {
    if vals == [] then "" else ("<" + FieldText(ftoa, vals[0]) + ">") + LineText(ftoa, vals[1..])
  }

  lemma FirstCell(ftoa: FloatBits -> string, vals: Row)
    requires AllPrintable(vals) && vals != []
    ensures AllPrintable(vals[1..])
    ensures LineText(ftoa, vals) == ("<" + FieldText(ftoa, vals[0]) + ">") + LineText(ftoa, vals[1..])
  {
  }

  lemma NoCells(ftoa: FloatBits -> string)
    ensures LineText(ftoa, []) == ""
  {
  }

  /** Floats print as one word without brackets or quotes, as `1.5`, `-2e+06` or `inf` do. */
  ghost predicate PrintsWords(ftoa: FloatBits -> string) {
    forall bits :: IsWord(ftoa(bits))
  }

  predicate IsWord(t: string) {
    t != [] && forall x <- t :: x !in "<>\" \n\0"
  }

  predicate RowsFit(types: seq<char>, rows: seq<Row>) {
    KnownTypes(types) && forall i | 0 <= i < |rows| :: RowFits(types, rows[i])
  }

  lemma {:induction false} HeldFits(types: seq<char>, rows: seq<Row>)
    requires RowsFit(types, rows)
    ensures ValsFit(types, Held(types, rows)) && AllPrintable(Held(types, rows))
  {
    if rows != [] {
      HeldFits(types, rows[..|rows| - 1]);
      assert RowFits(types, rows[|rows| - 1]);
    }
  }

  /** The lines of a printed frame: one per row, of the values the row object held. */
  function LinesText(ftoa: FloatBits -> string, types: seq<char>, rows: seq<Row>): (lines: seq<string>)
    requires RowsFit(types, rows)
    ensures |lines| == |rows|
  {
    seq(|rows|, i requires 0 <= i < |rows| => HeldText(ftoa, types, rows[..i + 1]))
  }

  function HeldText(ftoa: FloatBits -> string, types: seq<char>, rows: seq<Row>): string
    requires RowsFit(types, rows)
  {
    HeldFits(types, rows);
    LineText(ftoa, Held(types, rows))
  }

  /** All that printing a frame writes. */
  function PrintedText(ftoa: FloatBits -> string, types: seq<char>, rows: seq<Row>): string
    requires RowsFit(types, rows)
  {
    Unlines(LinesText(ftoa, types, rows))
  }

  // ---------- the printer ----------

  /** Collects the text that is printed. */
  class PrintFielder {
    const ftoa: FloatBits -> string
    var out: string

    constructor (ftoa: FloatBits -> string)
      ensures this.ftoa == ftoa && out == ""
    {
      this.ftoa, out := ftoa, "";
    }

    method Accept(c: Cell)
      requires Printable(c)
      modifies this
      ensures out == old(out) + ("<" + FieldText(ftoa, c) + ">")
    {
      out := out + ("<" + FieldText(ftoa, c) + ">");
    }

    method Done()
      modifies this
      ensures out == old(out) + "\n"
    {
      out := out + "\n";
    }
  }

  /** Hands every value of the row object to the printer, missing or not. */
  method Visit(row: RowObject, f: PrintFielder)
    requires |row.vals| == |row.types| && AllPrintable(row.vals)
    modifies f
    ensures f.out == old(f.out) + LineText(f.ftoa, row.vals) + "\n"
  {
    hide LineText, FieldText;
    var vals := row.vals;
    assert vals[0..] == vals && vals[|vals|..] == [];
    NoCells(f.ftoa);
    for i := 0 to |row.types|
      invariant f.out + LineText(f.ftoa, vals[i..]) == old(f.out) + LineText(f.ftoa, vals)
    {
      FirstCell(f.ftoa, vals[i..]);
      assert vals[i..][1..] == vals[i + 1..];
      ghost var before, cell, rest := f.out, "<" + FieldText(f.ftoa, vals[i]) + ">", LineText(f.ftoa, vals[i + 1..]);
      assert before + (cell + rest) == (before + cell) + rest;
      f.Accept(vals[i]);
    }
    f.Done();
  }

  /** Prints all rows through one row object. */
  method PrintFrame(ftoa: FloatBits -> string, types: seq<char>, rows: seq<Row>) returns (out: string)
    requires RowsFit(types, rows)
    ensures out == PrintedText(ftoa, types, rows)
  {
    hide LineText, Held, Over, CellFits;
    var row := new RowObject(types);
    var f := new PrintFielder(ftoa);
    ghost var texts := LinesText(ftoa, types, rows);
    assert rows[..0] == [] && texts[..0] == [];
    for i := 0 to |rows|
      invariant |row.vals| == |row.missing| == |types| && row.vals == Held(types, rows[..i])
      invariant f.out == Unlines(texts[..i])
    {
      HeldNext(types, rows, i);
      HeldFits(types, rows[..i + 1]);
      row.Fill(i, rows[i]);
      Visit(row, f);
      UnlinesMore(texts, i);
    }
    assert texts[..|rows|] == texts;
    out := f.out;
  }

  lemma {:induction false} UnlinesMore(lines: seq<string>, i: nat)
    requires i < |lines|
    ensures Unlines(lines[..i + 1]) == Unlines(lines[..i]) + lines[i] + "\n"
  {
    if i == 0 {
      assert lines[..1] == [lines[0]] && lines[..1][1..] == [];
    } else {
      assert lines[..i + 1][1..] == lines[1..][..i] && lines[..i][1..] == lines[1..][..i - 1];
      UnlinesMore(lines[1..], i - 1);
    }
  }

  // ---------- one value ----------

  /** Whether a value survives in a line of its own: what a caller can check before printing. */
  predicate Survives(atof: string -> FloatBits, ftoa: FloatBits -> string, c: Cell) {
    match c
    case Missing => false
    case Bool(_) => true
    case Int(_) => true
    case Float(bits) => |bits| == 4 && atof(ftoa(bits)) == bits
    case Str(s) => '\0' !in s && Contained(s) && NoQuoteAtEnds(s) && |s| <= MAX_STRING
  }

  /** Whether the text of a value is one field. */
  predicate Delimits(c: Cell) {
    c.Str? ==> Contained(CStr(c.s))
  }

  lemma SurvivorsDelimit(atof: string -> FloatBits, ftoa: FloatBits -> string, c: Cell)
    requires Survives(atof, ftoa, c)
    ensures Delimits(c)
  {
  }

  lemma WordField(t: string, rest: string)
    requires IsWord(t)
    ensures Fields("<" + t + ">" + rest) == [t] + Fields(rest)
    ensures t != [] && Trimmed(t, ' ') == t
  {
    hide Fields, CloseAt, QuotedAfter, Trimmed;
    assert '"' !in t && '>' !in t && ' ' !in t;
    assert t[0] in t && t[|t| - 1] in t;
    PlainText(t);
    FieldThenRest(t, rest);
    TrimKeeps(t, ' ');
  }

  lemma NumbersAreWords(c: Cell, ftoa: FloatBits -> string)
    requires PrintsWords(ftoa) && Printable(c) && !c.Str? && !c.Missing?
    ensures IsWord(FieldText(ftoa, c))
  {
    hide IntText;
    if c.Int? {
      var t := IntText(c.i);
      assert forall x <- t :: x !in "<>\" \n\0";
    }
  }

  /** A boolean is printed as the number 1 or 0. */
  lemma BoolText(ftoa: FloatBits -> string, b: bool)
    ensures FieldText(ftoa, Bool(b)) == IntText(if b then 1 else 0)
  {
  }

  lemma BoolRoundTrip(ftoa: FloatBits -> string, b: bool)
    ensures IntOf(FieldText(ftoa, Bool(b))) == if b then 1 else 0
  {
    hide IntText;
    BoolText(ftoa, b);
    IntRoundTrip(if b then 1 else 0);
  }

  /** A delimited value is scanned as one field, and what follows is scanned on its own. */
  lemma DelimitedIsField(ftoa: FloatBits -> string, c: Cell, rest: string)
    requires PrintsWords(ftoa) && Printable(c) && Delimits(c)
    ensures Fields("<" + FieldText(ftoa, c) + ">" + rest) == [FieldText(ftoa, c)] + Fields(rest)
  {
    hide Fields, Contained, IntText, IsWord, PrintsWords, CStr;
    match c {
      case Str(s) => ContainedIsField(CStr(s), rest);
      case Missing =>
        EmptyIsContained();
        ContainedIsField("", rest);
      case _ =>
        NumbersAreWords(c, ftoa);
        WordField(FieldText(ftoa, c), rest);
    }
  }

  lemma EmptyIsContained()
    ensures Contained("")
  {
  }

  /** A delimited value never scans as missing, and scans as itself exactly if it survives. */
  lemma DelimitedValue(atof: string -> FloatBits, ftoa: FloatBits -> string, typ: char, c: Cell)
    requires PrintsWords(ftoa) && typ in "BIFS" && ValFits(typ, c) && Printable(c) && Delimits(c)
    ensures CellOf(atof, typ, FieldText(ftoa, c)) != Missing
    ensures FieldOk(typ, FieldText(ftoa, c)) && CellOf(atof, typ, FieldText(ftoa, c)) == c <==> Survives(atof, ftoa, c)
  {
    hide Fields, Contained, IntText, IntOf, IsWord, PrintsWords, CStr, Trimmed, Quoted;
    match c {
      case Str(s) =>
        QuotedValue(atof, CStr(s));
        StringSurvives(atof, ftoa, s);
      case Missing =>
        QuotedValue(atof, "");
      case Int(i) =>
        NumbersAreWords(c, ftoa);
        WordField(IntText(i), "");
        IntRoundTrip(i);
      case Bool(b) =>
        NumbersAreWords(c, ftoa);
        WordField(FieldText(ftoa, c), "");
        BoolRoundTrip(ftoa, b);
      case Float(bits) =>
        NumbersAreWords(c, ftoa);
        WordField(ftoa(bits), "");
    }
  }

  lemma StringSurvives(atof: string -> FloatBits, ftoa: FloatBits -> string, s: string)
    requires Contained(CStr(s))
    ensures var t := Quoted(CStr(s));
            FieldOk('S', t) && CellOf(atof, 'S', t) == Str(s) <==> Survives(atof, ftoa, Str(s))
  {
    hide Trimmed, Quoted, Contained;
    var t := CStr(s);
    QuotedValue(atof, t);
    if '\0' in s {
      NulIsLost(atof, t, s);
    } else {
      assert t == s;
      TrimQuoted(s);
    }
  }

  /** A value scanned from a text without NUL holds none. */
  lemma NulIsLost(atof: string -> FloatBits, t: string, s: string)
    requires '\0' !in t && '\0' in s
    ensures CellOf(atof, 'S', Quoted(t)) != Str(s)
  {
    hide Trimmed;
    QuotedValue(atof, t);
    TrimKeepsChars(Quoted(t), '"', '\0');
  }

  /** A value that breaks its field never scans as itself. */
  lemma BrokenCell(atof: string -> FloatBits, ftoa: FloatBits -> string, c: Cell, rest: string)
    requires Printable(c) && !Delimits(c) && '\0' !in rest
    ensures var fields := Fields("<" + FieldText(ftoa, c) + ">" + rest);
            fields == [] || CellOf(atof, 'S', fields[0]) != c
  {
    hide Fields, Contained, Trimmed, CStr;
    var t := CStr(c.s);
    var line := "<" + Quoted(t) + ">" + rest;
    BrokenValue(atof, t, rest);
    if t != c.s {
      assert '\0' !in line;
      FieldsKeepChars(line, '\0');
      if Fields(line) != [] {
        var f := Fields(line)[0];
        assert f in Fields(line);
        TrimKeepsChars(f, ' ', '\0');
        TrimKeepsChars(Trimmed(f, ' '), '"', '\0');
      }
    }
  }

  // ---------- whole rows ----------

  predicate AllSurvive(atof: string -> FloatBits, ftoa: FloatBits -> string, r: Row) {
    forall j | 0 <= j < |r| :: Survives(atof, ftoa, r[j])
  }

  lemma FieldTextIsClean(ftoa: FloatBits -> string, c: Cell)
    requires PrintsWords(ftoa) && Printable(c)
    ensures '\0' !in FieldText(ftoa, c)
    ensures '\n' in FieldText(ftoa, c) <==> c.Str? && '\n' in CStr(c.s)
  {
    hide IntText, CStr, IsWord, PrintsWords;
    if !c.Str? && !c.Missing? {
      NumbersAreWords(c, ftoa);
      WordIsClean(FieldText(ftoa, c));
    }
  }

  lemma WordIsClean(t: string)
    requires IsWord(t)
    ensures '\0' !in t && '\n' !in t
  {
    assert '\0' in "<>\" \n\0" && '\n' in "<>\" \n\0";
  }

  /** A printed line has no NUL, and a newline only from a string that has one. */
  lemma {:induction false} LineIsClean(ftoa: FloatBits -> string, vals: Row)
    requires PrintsWords(ftoa) && AllPrintable(vals)
    ensures '\0' !in LineText(ftoa, vals)
    ensures IsLine(LineText(ftoa, vals)) <==> forall j | 0 <= j < |vals| && vals[j].Str? :: IsLine(CStr(vals[j].s))
  {
    hide FieldText, CStr, LineText, PrintsWords;
    if vals == [] {
      NoCells(ftoa);
    } else {
      FirstCell(ftoa, vals);
      LineIsClean(ftoa, vals[1..]);
      FieldTextIsClean(ftoa, vals[0]);
      var t, rest := FieldText(ftoa, vals[0]), LineText(ftoa, vals[1..]);
      Pieces(t, rest, '\0');
      Pieces(t, rest, '\n');
      assert forall j | 1 <= j < |vals| :: vals[j] == vals[1..][j - 1];
    }
  }

  lemma Pieces(t: string, rest: string, x: char)
    requires x == '\0' || x == '\n'
    ensures x in ("<" + t + ">") + rest <==> x in t || x in rest
  {
  }

  function FieldTexts(ftoa: FloatBits -> string, vals: Row): (texts: seq<string>)
    requires AllPrintable(vals)
    ensures |texts| == |vals|
  {
    seq(|vals|, j requires 0 <= j < |vals| => FieldText(ftoa, vals[j]))
  }

  /** The scanner finds the printed fields, whatever brackets and spaces the strings hold. */
  lemma {:induction false} LineScans(ftoa: FloatBits -> string, vals: Row)
    requires PrintsWords(ftoa) && AllPrintable(vals) && forall j | 0 <= j < |vals| :: Delimits(vals[j])
    ensures Fields(LineText(ftoa, vals)) == FieldTexts(ftoa, vals)
  {
    hide Fields, FieldText, LineText, FieldTexts, PrintsWords, Delimits;
    if vals == [] {
      NoCells(ftoa);
      NothingLeft();
      assert FieldTexts(ftoa, vals) == [];
    } else {
      assert forall j | 0 <= j < |vals| - 1 :: vals[1..][j] == vals[j + 1];
      FirstCell(ftoa, vals);
      LineScans(ftoa, vals[1..]);
      DelimitedIsField(ftoa, vals[0], LineText(ftoa, vals[1..]));
      FirstText(ftoa, vals);
    }
  }

  lemma FirstText(ftoa: FloatBits -> string, vals: Row)
    requires AllPrintable(vals) && vals != []
    ensures AllPrintable(vals[1..])
    ensures FieldTexts(ftoa, vals) == [FieldText(ftoa, vals[0])] + FieldTexts(ftoa, vals[1..])
  {
  }

  /** A printed row of survivors parses to itself. */
  lemma LineRoundTrip(atof: string -> FloatBits, ftoa: FloatBits -> string, types: seq<char>, vals: Row)
    requires PrintsWords(ftoa) && ValsFit(types, vals) && AllPrintable(vals) && AllSurvive(atof, ftoa, vals)
    ensures LineOk(types, LineFields(LineText(ftoa, vals)))
    ensures RowOf(atof, types, LineFields(LineText(ftoa, vals))) == vals
  {
    hide Fields, FieldText, LineText, CellFits, CellOf, FieldOk, PrintsWords, Delimits, Survives;
    forall j | 0 <= j < |vals| ensures Delimits(vals[j]) {
      SurvivorsDelimit(atof, ftoa, vals[j]);
    }
    LineScans(ftoa, vals);
    LineIsClean(ftoa, vals);
    forall j | 0 <= j < |vals|
      ensures FieldOk(types[j], FieldText(ftoa, vals[j])) && CellOf(atof, types[j], FieldText(ftoa, vals[j])) == vals[j]
    {
      DelimitedValue(atof, ftoa, types[j], vals[j]);
    }
  }

  /** What the row object held of a row: its values, and something delimited where they are missing. */
  predicate HoldsRow(vals: Row, r: Row) {
    |vals| == |r| && forall j | 0 <= j < |r| :: if r[j].Missing? then Delimits(vals[j]) else vals[j] == r[j]
  }

  /** A row comes back from its printed line only if all its values survive. */
  lemma {:induction false} OnlySurvivorsComeBack(atof: string -> FloatBits, ftoa: FloatBits -> string,
                                                 types: seq<char>, vals: Row, r: Row)
    requires PrintsWords(ftoa) && ValsFit(types, vals) && AllPrintable(vals) && HoldsRow(vals, r)
    requires LineOk(types, Fields(LineText(ftoa, vals)))
    requires RowOf(atof, types, Fields(LineText(ftoa, vals))) == r
    ensures AllSurvive(atof, ftoa, r)
  {
    hide Fields, FieldText, LineText, CellFits, CellOf, FieldOk, PrintsWords, Delimits, Survives;
    if vals != [] {
      var c, rest, fields := vals[0], LineText(ftoa, vals[1..]), Fields(LineText(ftoa, vals));
      FirstCell(ftoa, vals);
      LineIsClean(ftoa, vals[1..]);
      assert r[0] == if fields == [] then Missing else CellOf(atof, types[0], fields[0]);
      if Delimits(c) {
        DelimitedIsField(ftoa, c, rest);
        assert fields == [FieldText(ftoa, c)] + Fields(rest);
        DelimitedValue(atof, ftoa, types[0], c);
        TailOfRow(atof, types, fields, r);
        OnlySurvivorsComeBack(atof, ftoa, types[1..], vals[1..], r[1..]);
        assert forall j | 1 <= j < |r| :: r[j] == r[1..][j - 1];
      } else {
        BrokenIsString(types[0], c);
        BrokenCell(atof, ftoa, c, rest);
      }
    }
  }

  lemma BrokenIsString(typ: char, c: Cell)
    requires CellFits(typ, c) && !Delimits(c)
    ensures typ == 'S' && !c.Missing?
  {
  }

  lemma TailOfRow(atof: string -> FloatBits, types: seq<char>, fields: seq<string>, r: Row)
    requires types != [] && fields != [] && KnownTypes(types) && LineOk(types, fields) && RowOf(atof, types, fields) == r
    ensures KnownTypes(types[1..]) && LineOk(types[1..], fields[1..])
    ensures RowOf(atof, types[1..], fields[1..]) == r[1..]
  {
    hide CellOf, FieldOk;
  }

  // ---------- one string, one row ----------

  /**
   A string printed and scanned comes back exactly if it has no NUL and no
   quote at its ends, its quotes pair up around no `>`, and it is short enough.
   */
  lemma StringRoundTrip(atof: string -> FloatBits, ftoa: FloatBits -> string, s: string)
    requires PrintsWords(ftoa) && |s| + 1 < SIZE_LIMIT
    ensures var fields := LineFields(LineText(ftoa, [Str(s)]));
            LineOk("S", fields) && RowOf(atof, "S", fields) == [Str(s)] <==> Survives(atof, ftoa, Str(s))
  {
    RowRoundTrip(atof, ftoa, "S", [Str(s)]);
    assert AllSurvive(atof, ftoa, [Str(s)]) ==> Survives(atof, ftoa, [Str(s)][0]);
  }

  /** A row without missing values comes back from its printed line exactly if all its values survive. */
  lemma RowRoundTrip(atof: string -> FloatBits, ftoa: FloatBits -> string, types: seq<char>, r: Row)
    requires PrintsWords(ftoa) && ValsFit(types, r) && forall j | 0 <= j < |r| :: !r[j].Missing?
    ensures AllPrintable(r)
    ensures var fields := LineFields(LineText(ftoa, r));
            LineOk(types, fields) && RowOf(atof, types, fields) == r <==> AllSurvive(atof, ftoa, r)
  {
    hide Fields, LineText, PrintsWords, Survives, RowOf, LineOk;
    FitsPrint(types, r);
    LineIsClean(ftoa, r);
    if AllSurvive(atof, ftoa, r) {
      LineRoundTrip(atof, ftoa, types, r);
    } else if LineOk(types, LineFields(LineText(ftoa, r))) && RowOf(atof, types, LineFields(LineText(ftoa, r))) == r {
      OnlySurvivorsComeBack(atof, ftoa, types, r, r);
    }
  }

  lemma FitsPrint(types: seq<char>, vals: Row)
    requires ValsFit(types, vals)
    ensures AllPrintable(vals)
  {
  }

  // ---------- counting lines ----------

  function Newlines(s: string): nat {
    if s == [] then 0 else Newlines(s[1..]) + if s[0] == '\n' then 1 else 0
  }

  lemma {:induction false} NewlinesConcat(a: string, b: string)
    ensures Newlines(a + b) == Newlines(a) + Newlines(b)
  {
    if a == [] {
      assert a + b == b;
    } else {
      assert (a + b)[1..] == a[1..] + b;
      NewlinesConcat(a[1..], b);
    }
  }

  lemma {:induction false} NoNewlines(s: string)
    ensures Newlines(s) == 0 <==> IsLine(s)
  {
    if s != [] {
      NoNewlines(s[1..]);
    }
  }

  /** Printed lines break up into more lines exactly if one of them holds a newline. */
  lemma {:induction false} NewlinesOfUnlines(texts: seq<string>)
    ensures Newlines(Unlines(texts)) >= |texts|
    ensures Newlines(Unlines(texts)) == |texts| <==> forall t <- texts :: IsLine(t)
  {
    if texts != [] {
      NewlinesOfUnlines(texts[1..]);
      NewlinesConcat(texts[0] + "\n", Unlines(texts[1..]));
      NewlinesConcat(texts[0], "\n");
      assert "\n"[1..] == "";
      NoNewlines(texts[0]);
      assert texts == [texts[0]] + texts[1..];
    }
  }

  /** A text whose last line is ended has as many lines as newlines. */
  lemma {:induction false} LinesAreNewlines(s: string)
    requires s == [] || s[|s| - 1] == '\n'
    ensures |Lines(s)| == Newlines(s)
    decreases |s|
  {
    hide LineEnd;
    if s != [] {
      Cut(s);
      NextLine(s);
      var e, rest := LineEnd(s), AfterLine(s);
      assert s == s[..e] + ("\n" + rest);
      LinesAreNewlines(rest);
      NewlinesConcat(s[..e], "\n" + rest);
      NewlinesConcat("\n", rest);
      assert "\n"[1..] == "";
      NoNewlines(s[..e]);
    }
  }

  lemma {:induction false} UnlinesEnds(texts: seq<string>)
    ensures var s := Unlines(texts); s == [] || s[|s| - 1] == '\n'
  {
    if texts != [] {
      UnlinesEnds(texts[1..]);
    }
  }

  /** The printed lines are the lines of the text if and only if there are as many. */
  lemma LinesBack(texts: seq<string>)
    ensures |Lines(Unlines(texts))| == |texts| <==> forall t <- texts :: IsLine(t)
    ensures (forall t <- texts :: IsLine(t)) ==> Lines(Unlines(texts)) == texts
  {
    hide Lines, Unlines;
    UnlinesEnds(texts);
    LinesAreNewlines(Unlines(texts));
    NewlinesOfUnlines(texts);
    if forall t <- texts :: IsLine(t) {
      assert Unlines(texts) + "" == Unlines(texts);
      LinesOfUnlines(texts, "");
    }
  }

  // ---------- whole frames ----------

  /** Parsing the printed text goes through and gives the same rows. */
  predicate ComesBack(atof: string -> FloatBits, ftoa: FloatBits -> string, types: seq<char>, rows: seq<Row>)
    requires RowsFit(types, rows)
  {
    var lines := Lines(PrintedText(ftoa, types, rows));
    LinesOk(types, lines) && FileRows(atof, types, lines) == rows
  }

  /** All values survive, and no string holds a newline; a missing value never survives. */
  predicate RowsSurvive(atof: string -> FloatBits, ftoa: FloatBits -> string, rows: seq<Row>) {
    forall i | 0 <= i < |rows| :: AllSurvive(atof, ftoa, rows[i]) && OneLine(rows[i])
  }

  predicate OneLine(r: Row) {
    forall j | 0 <= j < |r| && r[j].Str? :: IsLine(r[j].s)
  }

  lemma {:induction false} SurvivorsAreHeld(atof: string -> FloatBits, ftoa: FloatBits -> string,
                                            types: seq<char>, rows: seq<Row>)
    requires RowsFit(types, rows) && rows != [] && AllSurvive(atof, ftoa, rows[|rows| - 1])
    ensures Held(types, rows) == rows[|rows| - 1]
  {
    hide CellFits;
    var r := rows[|rows| - 1];
    assert forall j | 0 <= j < |r| :: Survives(atof, ftoa, r[j]);
  }

  /** Where every row held survives, the text parses to the rows held. */
  lemma HeldRoundTrip(atof: string -> FloatBits, ftoa: FloatBits -> string, types: seq<char>, rows: seq<Row>)
    requires PrintsWords(ftoa) && RowsFit(types, rows) && RowsSurvive(atof, ftoa, HeldRows(types, rows))
    ensures var lines := Lines(PrintedText(ftoa, types, rows));
            LinesOk(types, lines) && FileRows(atof, types, lines) == HeldRows(types, rows)
  {
    hide LineText, RowOf, LineOk, LineFields, Held, CellFits, PrintsWords, Lines, Unlines, Survives;
    var held, texts := HeldRows(types, rows), LinesText(ftoa, types, rows);
    forall i | 0 <= i < |rows|
      ensures IsLine(texts[i]) && LineOk(types, LineFields(texts[i]))
      ensures RowOf(atof, types, LineFields(texts[i])) == held[i]
    {
      HeldFits(types, rows[..i + 1]);
      assert AllSurvive(atof, ftoa, held[i]) && OneLine(held[i]);
      LineRoundTrip(atof, ftoa, types, held[i]);
      SurvivorLine(atof, ftoa, held[i]);
    }
    LinesBack(texts);
  }

  lemma SurvivorLine(atof: string -> FloatBits, ftoa: FloatBits -> string, vals: Row)
    requires PrintsWords(ftoa) && AllPrintable(vals) && AllSurvive(atof, ftoa, vals)
    ensures IsLine(LineText(ftoa, vals)) <==> OneLine(vals)
  {
    hide LineText, PrintsWords, Contained;
    LineIsClean(ftoa, vals);
    assert forall j | 0 <= j < |vals| && vals[j].Str? :: Survives(atof, ftoa, vals[j]) && CStr(vals[j].s) == vals[j].s;
  }

  /** Before any row, and after a row of survivors, the row object holds delimited values. */
  lemma HeldDelimits(atof: string -> FloatBits, ftoa: FloatBits -> string, types: seq<char>, rows: seq<Row>, i: nat)
    requires RowsFit(types, rows) && i < |rows|
    requires i > 0 ==> AllSurvive(atof, ftoa, rows[i - 1])
    ensures HoldsRow(Held(types, rows[..i + 1]), rows[i])
  {
    hide CellFits, Held;
    HeldNext(types, rows, i);
    var before := Held(types, rows[..i]);
    if i > 0 {
      SurvivorsAreHeld(atof, ftoa, types, rows[..i]);
      forall j | 0 <= j < |types| ensures Delimits(before[j]) {
        SurvivorsDelimit(atof, ftoa, rows[i - 1][j]);
      }
    } else {
      FirstHeld(types);
    }
  }

  lemma FirstHeld(types: seq<char>)
    ensures forall j | 0 <= j < |types| :: Delimits(Held(types, [])[j])
  {
  }

  /** Rows that come back survive, one after the other. */
  lemma {:induction false} BackMeansSurvive(atof: string -> FloatBits, ftoa: FloatBits -> string,
                                            types: seq<char>, rows: seq<Row>, n: nat)
    requires PrintsWords(ftoa) && RowsFit(types, rows) && n <= |rows|
    requires Lines(PrintedText(ftoa, types, rows)) == LinesText(ftoa, types, rows)
    requires ComesBack(atof, ftoa, types, rows)
    ensures forall i | 0 <= i < n :: AllSurvive(atof, ftoa, rows[i])
  {
    hide LineText, RowOf, LineOk, Held, CellFits, PrintsWords, Lines, Unlines, Survives, CStr;
    if n > 0 {
      BackMeansSurvive(atof, ftoa, types, rows, n - 1);
      var i := n - 1;
      var texts := LinesText(ftoa, types, rows);
      HeldDelimits(atof, ftoa, types, rows, i);
      HeldFits(types, rows[..n]);
      var vals := Held(types, rows[..n]);
      assert texts[i] == LineText(ftoa, vals);
      LineIsClean(ftoa, vals);
      CleanLine(texts[i]);
      assert FileRows(atof, types, texts)[i] == RowOf(atof, types, LineFields(texts[i]));
      OnlySurvivorsComeBack(atof, ftoa, types, vals, rows[i]);
    }
  }

  lemma CleanLine(line: string)
    requires '\0' !in line
    ensures LineFields(line) == Fields(line)
  {
  }

  /** Rows of survivors are printed as they are, on one line each unless a string holds a newline. */
  lemma SurvivorsPrint(atof: string -> FloatBits, ftoa: FloatBits -> string, types: seq<char>, rows: seq<Row>)
    requires PrintsWords(ftoa) && RowsFit(types, rows) && forall i | 0 <= i < |rows| :: AllSurvive(atof, ftoa, rows[i])
    ensures HeldRows(types, rows) == rows
    ensures forall i | 0 <= i < |rows| :: IsLine(LinesText(ftoa, types, rows)[i]) <==> OneLine(rows[i])
  {
    hide LineText, Held, CellFits, PrintsWords, Survives, OneLine, AllSurvive, IsLine;
    forall i | 0 <= i < |rows|
      ensures Held(types, rows[..i + 1]) == rows[i] && (IsLine(LinesText(ftoa, types, rows)[i]) <==> OneLine(rows[i]))
    {
      SurvivorsAreHeld(atof, ftoa, types, rows[..i + 1]);
      HeldFits(types, rows[..i + 1]);
      SurvivorLine(atof, ftoa, rows[i]);
    }
  }

  lemma SurvivorsComeBack(atof: string -> FloatBits, ftoa: FloatBits -> string, types: seq<char>, rows: seq<Row>)
    requires PrintsWords(ftoa) && RowsFit(types, rows) && RowsSurvive(atof, ftoa, rows)
    ensures ComesBack(atof, ftoa, types, rows)
  {
    hide PrintsWords, RowsFit, LinesText, PrintedText, AllSurvive, OneLine;
    SurvivorsPrint(atof, ftoa, types, rows);
    HeldRoundTrip(atof, ftoa, types, rows);
  }

  lemma BackIsSurvival(atof: string -> FloatBits, ftoa: FloatBits -> string, types: seq<char>, rows: seq<Row>)
    requires PrintsWords(ftoa) && RowsFit(types, rows) && ComesBack(atof, ftoa, types, rows)
    ensures RowsSurvive(atof, ftoa, rows)
  {
    hide PrintsWords, RowsFit, RowOf, LineOk, Lines, Unlines, AllSurvive, OneLine, IsLine, HeldText;
    var texts := LinesText(ftoa, types, rows);
    LinesBack(texts);
    BackMeansSurvive(atof, ftoa, types, rows, |rows|);
    SurvivorsPrint(atof, ftoa, types, rows);
    assert forall i | 0 <= i < |rows| :: IsLine(texts[i]);
  }

  /**
   Print, then parse against the same types: the same rows come back if and
   only if no value is missing, every float survives its own text, and every
   string is free of NUL and newline, has no quote at its ends, pairs up its
   quotes around no `>`, and is within the limit.
   */
  lemma PrintThenParse(atof: string -> FloatBits, ftoa: FloatBits -> string, types: seq<char>, rows: seq<Row>)
    requires PrintsWords(ftoa) && RowsFit(types, rows)
    ensures ComesBack(atof, ftoa, types, rows) <==> RowsSurvive(atof, ftoa, rows)
  {
    hide ComesBack, RowsSurvive, PrintsWords, RowsFit;
    if ComesBack(atof, ftoa, types, rows) {
      BackIsSurvival(atof, ftoa, types, rows);
    }
    if RowsSurvive(atof, ftoa, rows) {
      SurvivorsComeBack(atof, ftoa, types, rows);
    }
  }

  /** A missing number comes back as the number printed before it. */
  lemma MissingComesBackAsOld(atof: string -> FloatBits, ftoa: FloatBits -> string)
    requires PrintsWords(ftoa)
    ensures RowsFit("I", [[Int(7)], [Missing]])
    ensures FileRows(atof, "I", Lines(PrintedText(ftoa, "I", [[Int(7)], [Missing]]))) == [[Int(7)], [Int(7)]]
  {
    hide PrintsWords, LineText, Lines, Unlines, CellOf;
    var rows: seq<Row> := [[Int(7)], [Missing]];
    assert rows[..1] == [[Int(7)]] && rows[..2] == rows && rows[..0] == [];
    HeldNext("I", rows, 0);
    HeldNext("I", rows, 1);
    var held := HeldRows("I", rows);
    assert held[0] == Over(Held("I", []), rows[0]) == [Int(7)];
    assert held[1] == Over(held[0], rows[1]) == [Int(7)];
    assert held == [[Int(7)], [Int(7)]];
    HeldRoundTrip(atof, ftoa, "I", rows);
  }
}
