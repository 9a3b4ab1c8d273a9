/** What the fields of a line stand for: blank and missing fields, strings, numbers and booleans. */
module SorValues {
  import opened Params
  import opened Messages
  import opened Text
  import opened Wire
  import opened Layout
  import opened SorText
  import opened SorFields

  predicate Blank(f: string) {
    forall x <- f :: x == ' '
  }

  // ---------- missing values ----------

  lemma BlankTrims(f: string)
    ensures Trimmed(f, ' ') == [] <==> Blank(f)
  {
    var left := TrimmedLeft(f, ' ');
    assert left == f[|f| - |left|..];
    if left != [] {
      assert left[0] in f;
      assert TrimmedRight(left, ' ') != [];
    }
  }

  /** In a column of any type a field stands for a missing value exactly if it is blank. */
  lemma BlankIsMissing(atof: string -> FloatBits, typ: char, f: string)
    requires typ in "BIFS"
    ensures CellOf(atof, typ, f) == Missing <==> Blank(f)
  {
    hide Trimmed, IntOf, Blank;
    BlankTrims(f);
  }

  /** A row has missing values where the line has a blank field or none. */
  lemma MissingInRow(atof: string -> FloatBits, types: seq<char>, fields: seq<string>, j: nat)
    requires KnownTypes(types) && j < |types|
    ensures RowOf(atof, types, fields)[j] == Missing <==> j >= |fields| || Blank(fields[j])
  {
    hide CellOf, Blank;
    if j < |fields| {
      BlankIsMissing(atof, types[j], fields[j]);
    }
  }

  // ---------- strings ----------

  /** A text that neither begins nor ends with a space or a quote. */
  predicate Bare(t: string) {
    t != [] && t[0] !in " \"" && t[|t| - 1] !in " \""
  }

  /** Spaces around a bare text do not count, and it needs no quotes; the parser takes up to 255 characters. */
  lemma BareStringIsItself(atof: string -> FloatBits, a: nat, t: string, b: nat)
    requires Bare(t)
    ensures CellOf(atof, 'S', Copies(' ', a) + t + Copies(' ', b)) == Str(t)
    ensures FieldOk('S', Copies(' ', a) + t + Copies(' ', b)) <==> |t| <= 255
  {
    hide Trimmed, Copies;
    TrimUndoesPadding(' ', a, t, b);
    TrimKeeps(t, '"');
  }

  // ---------- numbers ----------

  lemma {:induction false} DigitsEnd(d: string, tail: string)
    requires AllDigits(d) && (tail == [] || !IsDigit(tail[0]))
    ensures LeadingDigits(d + tail) == d
  {
    if d == [] {
      assert d + tail == tail;
    } else {
      assert (d + tail)[1..] == d[1..] + tail;
      DigitsEnd(d[1..], tail);
    }
  }

  /** The number of 32 bits that a longer one is cut to: they differ by a multiple of 2^32. */
  ghost predicate CutTo32(n: int, i: int) {
    -0x8000_0000 <= i < 0x8000_0000 && exists q: int :: n == i + q * 0x1_0000_0000
  }

  lemma NarrowCuts(n: int)
    ensures CutTo32(n, Narrow(n))
  {
    var m, w := n + INT_LIMIT, 2 * INT_LIMIT;
    assert m == m / w * w + m % w;
    assert n == Narrow(n) + m / w * 0x1_0000_0000;
  }

  /** A sign, digits, and anything that goes on with no digit: the digits count, cut to 32 bits. */
  lemma NumberFieldReads(atof: string -> FloatBits, minus: bool, d: string, tail: string)
    requires AllDigits(d) && (tail == [] || !IsDigit(tail[0]))
    ensures CutTo32(if minus then -DecimalValue(d) else DecimalValue(d), IntOf((if minus then "-" else "+") + d + tail))
    ensures d != [] ==> CutTo32(DecimalValue(d), IntOf(d + tail))
  {
    hide DecimalValue, LeadingDigits, CutTo32, Narrow;
    DigitsEnd(d, tail);
    var s := (if minus then "-" else "+") + d + tail;
    assert s[1..] == d + tail;
    NarrowCuts(NumberIn(s));
    if d != [] {
      assert IsDigit(d[0]);
      assert (d + tail)[0] == d[0];
      NarrowCuts(NumberIn(d + tail));
    }
  }

  /** A text with neither sign nor digit in front is read as 0. */
  lemma NoNumberIsZero(s: string)
    requires s == [] || (!IsDigit(s[0]) && s[0] !in "+-")
    ensures IntOf(s) == 0
  {
  }

  lemma IntTextIsWord(i: int)
    ensures Trimmed(IntText(i), ' ') == IntText(i)
  {
    hide Trimmed;
    var t := IntText(i);
    assert t[0] in t && t[|t| - 1] in t;
    TrimKeeps(t, ' ');
  }

  /** A printed number is that number in a column of integers, and true in a column of booleans only if it is 1. */
  lemma PrintedNumber(atof: string -> FloatBits, i: int)
    requires -INT_LIMIT <= i < INT_LIMIT
    ensures CellOf(atof, 'I', IntText(i)) == Int(i)
    ensures CellOf(atof, 'B', IntText(i)) == Bool(i == 1)
  {
    hide Trimmed, IntText, IntOf;
    IntTextIsWord(i);
    IntRoundTrip(i);
  }

  /** A field is true exactly if a column of integers would hold 1. */
  lemma TrueIsOne(atof: string -> FloatBits, f: string)
    ensures CellOf(atof, 'B', f) == Bool(true) <==> CellOf(atof, 'I', f) == Int(1)
    ensures CellOf(atof, 'B', f) == Bool(false) <==> CellOf(atof, 'I', f).Int? && CellOf(atof, 'I', f) != Int(1)
  {
    hide Trimmed, IntOf;
  }
}
