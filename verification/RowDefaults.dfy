/**
 What stands behind missing marks: the zero of a column's type until there is
 a value, and then the last value there was.
 */
module RowDefaults {
  import opened Params
  import opened Messages
  import opened Text
  import opened Wire
  import opened Layout
  import opened RowObjects
  import opened LineReaders
  import opened SorText
  import opened SorFields
  import opened SorValues
  import opened SorPrint

  /** False, 0, the float 0, and the empty string. */
  function Zero(typ: char): Cell {
    if typ == 'B' then Bool(false)
    else if typ == 'I' then Int(0)
    else if typ == 'F' then Float(['\0', '\0', '\0', '\0'])
    else Str("")
  }

  /** A fresh row object holds what the field `0` stands for; the four bytes of a float are those of the number 0. */
  lemma FreshIsZero(atof: string -> FloatBits, typ: char)
    ensures typ == 'B' || typ == 'I' ==> Dummy(typ) == CellOf(atof, typ, "0") == Zero(typ)
    ensures typ == 'F' ==> Dummy(typ).Float? && Dummy(typ).bits == EncInt(0)
    ensures typ == 'S' ==> Dummy(typ) == Missing
  {
    hide Trimmed, IntOf;
    PrintedNumber(atof, 0);
    assert IntText(0) == "0";
    assert EncInt(0) == ['\0', '\0', '\0', '\0'] by {
      assert Bytes(0, 4) == ['\0'] + Bytes(0, 3);
      assert Bytes(0, 3) == ['\0'] + Bytes(0, 2);
      assert Bytes(0, 2) == ['\0'] + Bytes(0, 1);
      assert Bytes(0, 1) == ['\0'] + Bytes(0, 0);
    }
  }

  /** The row with a zero for every missing value. */
  function ZeroFilled(types: seq<char>, r: Row): (filled: Row)
    requires |r| == |types|
    ensures |filled| == |r|
  {
    seq(|r|, j requires 0 <= j < |r| => if r[j].Missing? then Zero(types[j]) else r[j])
  }

  /** Equal values, but that no string prints as the empty one. */
  predicate PrintsAlike(a: Cell, b: Cell) {
    a == b || (a == Missing && b == Str(""))
  }

  lemma AlikeText(ftoa: FloatBits -> string, a: Cell, b: Cell)
    requires Printable(a) && Printable(b) && PrintsAlike(a, b)
    ensures FieldText(ftoa, a) == FieldText(ftoa, b)
  {
    assert CStr("") == "";
  }

  predicate RowsAlike(a: Row, b: Row) {
    |a| == |b| && forall j | 0 <= j < |a| :: PrintsAlike(a[j], b[j])
  }

  lemma {:induction false} AlikeLine(ftoa: FloatBits -> string, a: Row, b: Row)
    requires AllPrintable(a) && AllPrintable(b) && RowsAlike(a, b)
    ensures LineText(ftoa, a) == LineText(ftoa, b)
  {
    hide FieldText;
    if a != [] {
      AlikeText(ftoa, a[0], b[0]);
      AlikeLine(ftoa, a[1..], b[1..]);
    }
  }

  /** The frame whose first row has zeros for its missing values. */
  function ZeroStart(types: seq<char>, rows: seq<Row>): (rows': seq<Row>)
    requires RowsFit(types, rows)
    ensures |rows'| == |rows| && RowsFit(types, rows')
  {
    if rows == [] then [] else
      assert RowFits(types, rows[0]);
      ZeroFilledFits(types, rows[0]);
      rows[0 := ZeroFilled(types, rows[0])]
  }

  lemma ZeroFilledFits(types: seq<char>, r: Row)
    requires KnownTypes(types) && RowFits(types, r)
    ensures RowFits(types, ZeroFilled(types, r))
  {
    forall j | 0 <= j < |types| ensures CellFits(types[j], ZeroFilled(types, r)[j]) {
      assert types[j] in "BIFS";
    }
  }

  lemma {:induction false} HeldAlike(types: seq<char>, rows: seq<Row>, n: nat)
    requires RowsFit(types, rows) && 0 < n <= |rows|
    ensures RowsAlike(Held(types, rows[..n]), Held(types, ZeroStart(types, rows)[..n]))
  {
    hide CellFits;
    var rows' := ZeroStart(types, rows);
    assert RowFits(types, rows[n - 1]);
    HeldNext(types, rows, n - 1);
    HeldNext(types, rows', n - 1);
    if n == 1 {
      assert rows[..0] == rows'[..0] == [];
      FreshAlike(types);
    } else {
      HeldAlike(types, rows, n - 1);
    }
  }

  lemma FreshAlike(types: seq<char>)
    requires KnownTypes(types)
    ensures forall j | 0 <= j < |types| :: PrintsAlike(Held(types, [])[j], Zero(types[j]))
  {
    forall j | 0 <= j < |types| ensures PrintsAlike(Held(types, [])[j], Zero(types[j])) {
      assert types[j] in "BIFS";
    }
  }

  /** Values missing before a column has any print as zeros and empty strings. */
  lemma MissingStartPrintsZeros(ftoa: FloatBits -> string, types: seq<char>, rows: seq<Row>)
    requires RowsFit(types, rows)
    ensures PrintedText(ftoa, types, rows) == PrintedText(ftoa, types, ZeroStart(types, rows))
  {
    hide LineText, Held, CellFits, Unlines, RowsAlike;
    var rows' := ZeroStart(types, rows);
    forall i | 0 <= i < |rows| ensures LinesText(ftoa, types, rows)[i] == LinesText(ftoa, types, rows')[i] {
      HeldAlike(types, rows, i + 1);
      HeldFits(types, rows[..i + 1]);
      HeldFits(types, rows'[..i + 1]);
      AlikeLine(ftoa, Held(types, rows[..i + 1]), Held(types, rows'[..i + 1]));
    }
    assert LinesText(ftoa, types, rows) == LinesText(ftoa, types, rows');
  }

  // ---------- booleans print as numbers ----------

  function AsInt(c: Cell): Cell {
    if c.Bool? then Int(if c.b then 1 else 0) else c
  }

  function RowAsInts(r: Row): (r': Row)
    ensures |r'| == |r|
  {
    seq(|r|, j requires 0 <= j < |r| => AsInt(r[j]))
  }

  function RowsAsInts(rows: seq<Row>): (rows': seq<Row>)
    ensures |rows'| == |rows|
  {
    seq(|rows|, i requires 0 <= i < |rows| => RowAsInts(rows[i]))
  }

  /** The types with integers for booleans. */
  function IntTypes(types: seq<char>): (types': seq<char>)
    ensures |types'| == |types|
  {
    seq(|types|, j requires 0 <= j < |types| => if types[j] == 'B' then 'I' else types[j])
  }

  lemma IntsFit(types: seq<char>, rows: seq<Row>)
    requires RowsFit(types, rows)
    ensures RowsFit(IntTypes(types), RowsAsInts(rows))
  {
    forall i | 0 <= i < |rows| ensures RowFits(IntTypes(types), RowsAsInts(rows)[i]) {
      assert RowFits(types, rows[i]);
      forall j | 0 <= j < |types| ensures CellFits(IntTypes(types)[j], RowsAsInts(rows)[i][j]) {
        assert CellFits(types[j], rows[i][j]);
      }
    }
  }

  lemma {:induction false} HeldAsInts(types: seq<char>, rows: seq<Row>, n: nat)
    requires Rectangular(types, rows) && n <= |rows|
    ensures Rectangular(IntTypes(types), RowsAsInts(rows))
    ensures Held(IntTypes(types), RowsAsInts(rows)[..n]) == RowAsInts(Held(types, rows[..n]))
  {
    if n == 0 {
      assert rows[..0] == RowsAsInts(rows)[..0] == [];
    } else {
      HeldAsInts(types, rows, n - 1);
      HeldNext(types, rows, n - 1);
      HeldNext(IntTypes(types), RowsAsInts(rows), n - 1);
    }
  }

  lemma {:induction false} LineAsInts(ftoa: FloatBits -> string, vals: Row)
    requires AllPrintable(vals)
    ensures AllPrintable(RowAsInts(vals)) && LineText(ftoa, RowAsInts(vals)) == LineText(ftoa, vals)
  {
    hide IntText;
    if vals != [] {
      assert RowAsInts(vals)[1..] == RowAsInts(vals[1..]);
      LineAsInts(ftoa, vals[1..]);
      if vals[0].Bool? {
        BoolText(ftoa, vals[0].b);
      }
    }
  }

  /** A frame prints like the frame with 1 and 0 for true and false. */
  lemma BoolsPrintAsNumbers(ftoa: FloatBits -> string, types: seq<char>, rows: seq<Row>)
    requires RowsFit(types, rows)
    ensures RowsFit(IntTypes(types), RowsAsInts(rows))
    ensures PrintedText(ftoa, types, rows) == PrintedText(ftoa, IntTypes(types), RowsAsInts(rows))
  {
    hide LineText, Held, CellFits, Unlines, RowAsInts, RowsAsInts, IntTypes;
    IntsFit(types, rows);
    var types', rows' := IntTypes(types), RowsAsInts(rows);
    forall i | 0 <= i < |rows| ensures LinesText(ftoa, types, rows)[i] == LinesText(ftoa, types', rows')[i] {
      HeldAsInts(types, rows, i + 1);
      HeldFits(types, rows[..i + 1]);
      HeldFits(types', rows'[..i + 1]);
      LineAsInts(ftoa, Held(types, rows[..i + 1]));
    }
    assert LinesText(ftoa, types, rows) == LinesText(ftoa, types', rows');
  }

  /** Read as numbers, printed booleans are 1 and 0; where there is no string, the empty one is printed. */
  lemma PrintedDefaults(atof: string -> FloatBits, ftoa: FloatBits -> string, b: bool)
    ensures CellOf(atof, 'I', FieldText(ftoa, Bool(b))) == Int(if b then 1 else 0)
    ensures CellOf(atof, 'S', FieldText(ftoa, Missing)) == Str("")
  {
    hide Trimmed, Quoted, IntText;
    BoolText(ftoa, b);
    PrintedNumber(atof, if b then 1 else 0);
    QuotedValue(atof, "");
  }
}
