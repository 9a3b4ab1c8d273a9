/**
 What SoR text means: which fields a line holds, which value a field stands
 for in a column of each type, and which type a column of fields suggests.
 */
module SorText {
  import opened Params
  import opened Messages
  import opened Text
  import opened Wire
  import opened Layout

  const MAX_STRING: nat := 255

  /** The four bytes of a float. */
  type FloatBits = bits: seq<char> | |bits| == 4 witness "0000"

  // ---------- trimming ----------

  function TrimmedLeft(s: string, c: char): (r: string)
    ensures |r| <= |s| && (r == [] || r[0] != c)
    ensures s[|s| - |r|..] == r && forall i | 0 <= i < |s| - |r| :: s[i] == c
  {
    if s != [] && s[0] == c then
      TrimmedLeft(s[1..], c)
    else s
  }

  function TrimmedRight(s: string, c: char): (r: string)
    ensures r <= s && (r == [] || r[|r| - 1] != c)
    ensures forall i | |r| <= i < |s| :: s[i] == c
  {
    if s != [] && s[|s| - 1] == c then TrimmedRight(s[..|s| - 1], c) else s
  }

  /** A text without the `c` at its beginning and its end. */
  function Trimmed(s: string, c: char): (r: string)
    ensures |r| <= |s| && (r == [] || (r[0] != c && r[|r| - 1] != c))
  {
    TrimmedRight(TrimmedLeft(s, c), c)
  }

  function Copies(c: char, n: nat): (s: string)
    ensures |s| == n && forall i | 0 <= i < n :: s[i] == c
  {
    seq(n, _ => c)
  }

  lemma CopiesTail(c: char, a: nat, t: string)
    requires a > 0
    ensures (Copies(c, a) + t)[0] == c && (Copies(c, a) + t)[1..] == Copies(c, a - 1) + t
  {
  }

  lemma {:induction false} TrimLeftCopies(c: char, a: nat, t: string)
    requires t == [] || t[0] != c
    ensures TrimmedLeft(Copies(c, a) + t, c) == t
  {
    hide Copies;
    if a > 0 {
      CopiesTail(c, a, t);
      TrimLeftCopies(c, a - 1, t);
    } else {
      assert Copies(c, 0) + t == t;
    }
  }

  lemma {:induction false} TrimRightCopies(c: char, t: string, b: nat)
    requires t == [] || t[|t| - 1] != c
    ensures TrimmedRight(t + Copies(c, b), c) == t
  {
    if b > 0 {
      var s := t + Copies(c, b);
      assert s[..|s| - 1] == t + Copies(c, b - 1);
      TrimRightCopies(c, t, b - 1);
    } else {
      assert t + Copies(c, 0) == t;
    }
  }

  /** Trimming undoes any padding, and takes nothing else. */
  lemma TrimUndoesPadding(c: char, a: nat, t: string, b: nat)
    requires t == [] || (t[0] != c && t[|t| - 1] != c)
    ensures Trimmed(Copies(c, a) + t + Copies(c, b), c) == t
  {
    hide TrimmedLeft, TrimmedRight;
    if t == [] {
      assert Copies(c, a) + t + Copies(c, b) == Copies(c, a + b) + t;
      TrimLeftCopies(c, a + b, t);
      assert t + Copies(c, 0) == t;
      TrimRightCopies(c, t, 0);
    } else {
      assert Copies(c, a) + t + Copies(c, b) == Copies(c, a) + (t + Copies(c, b));
      TrimLeftCopies(c, a, t + Copies(c, b));
      TrimRightCopies(c, t, b);
    }
  }

  // ---------- numbers ----------

  function LeadingDigits(s: string): (d: string)
    ensures d <= s && AllDigits(d)
    ensures |d| < |s| ==> !IsDigit(s[|d|])
  {
    if s != [] && IsDigit(s[0]) then
      assert s == [s[0]] + s[1..];
      [s[0]] + LeadingDigits(s[1..])
    else []
  }

  /** A sign, then digits; the first other character ends the number. */
  function NumberIn(s: string): int {
    if s != [] && s[0] == '-' then -DecimalValue(LeadingDigits(s[1..]))
    else if s != [] && s[0] == '+' then DecimalValue(LeadingDigits(s[1..]))
    else DecimalValue(LeadingDigits(s))
  }

  /** The low 32 bits of a number, as a signed number. */
  function Narrow(n: int): (i: int)
    ensures -INT_LIMIT <= i < INT_LIMIT
    ensures -INT_LIMIT <= n < INT_LIMIT ==> i == n
  {
    (n + INT_LIMIT) % (2 * INT_LIMIT) - INT_LIMIT
  }

  function IntOf(s: string): (i: int)
    ensures -INT_LIMIT <= i < INT_LIMIT
  {
    Narrow(NumberIn(s))
  }

  function IntText(i: int): (s: string)
    ensures s != [] && forall x <- s :: IsDigit(x) || x == '-'
  {
    if i < 0 then "-" + Decimal(-i) else Decimal(i)
  }

  lemma {:induction false} DigitsAreLeading(d: string)
    requires AllDigits(d)
    ensures LeadingDigits(d) == d
  {
    if d != [] {
      assert forall x <- d[1..] :: x in d;
      DigitsAreLeading(d[1..]);
    }
  }

  /** Every 32-bit number survives being printed and scanned, the least one included. */
  lemma IntRoundTrip(i: int)
    requires -INT_LIMIT <= i < INT_LIMIT
    ensures IntOf(IntText(i)) == i
  {
    hide Decimal, DecimalValue, LeadingDigits;
    var d := Decimal(if i < 0 then -i else i);
    DigitsAreLeading(d);
    DecimalRoundTrip(if i < 0 then -i else i);
    assert d[0] in d;
    assert i < 0 ==> IntText(i)[1..] == d;
  }

  // ---------- fields ----------

  /** Where the field that `s` continues is closed: at the first `>` outside quotes. */
  function CloseAt(s: string, quoted: bool): (e: Option<nat>)
    ensures e.Some? ==> e.value < |s| && s[e.value] == '>'
  {
    if s == [] then None
    else if s[0] == '>' && !quoted then Some(0)
    else
      var rest := CloseAt(s[1..], if s[0] == '"' then !quoted else quoted);
      if rest.None? then None else Some(rest.value + 1)
  }

  /** Whether quotes are open after `s`. */
  function QuotedAfter(s: string, quoted: bool): bool {
    if s == [] then quoted else QuotedAfter(s[1..], if s[0] == '"' then !quoted else quoted)
  }

  /** The texts between `<` and the `>` that closes it; what is between fields, or never closed, is no field. */
  function Fields(s: string): (fields: seq<string>)
    ensures forall j | 0 <= j < |fields| :: |fields[j]| <= |s|
    ensures |fields| <= |s|
    decreases |s|
  {
    if s == [] then []
    else if s[0] != '<' then Fields(s[1..])
    else
      var e := CloseAt(s[1..], false);
      if e.None? then [] else [s[1..e.value + 1]] + Fields(s[e.value + 2..])
  }

  lemma {:induction false} CloseAtSkips(t: string, rest: string, quoted: bool)
    requires CloseAt(t, quoted).None?
    ensures var e := CloseAt(rest, QuotedAfter(t, quoted));
            CloseAt(t + rest, quoted) == if e.None? then None else Some(|t| + e.value)
  {
    if t == [] {
      assert t + rest == rest;
    } else {
      assert (t + rest)[1..] == t[1..] + rest;
      CloseAtSkips(t[1..], rest, if t[0] == '"' then !quoted else quoted);
    }
  }

  lemma {:induction false} CloseAtFirst(t: string, rest: string, quoted: bool)
    requires CloseAt(t, quoted).Some?
    ensures CloseAt(t + rest, quoted) == CloseAt(t, quoted)
  {
    assert (t + rest)[1..] == t[1..] + rest;
    if t[0] == '>' && !quoted {
    } else {
      CloseAtFirst(t[1..], rest, if t[0] == '"' then !quoted else quoted);
    }
  }

  predicate Odd(n: nat) {
    n % 2 == 1
  }

  function Quotes(s: string): nat {
    if s == [] then 0 else Quotes(s[1..]) + if s[0] == '"' then 1 else 0
  }

  lemma {:induction false} QuotedIfOdd(s: string, quoted: bool)
    ensures QuotedAfter(s, quoted) == (Odd(Quotes(s)) != quoted)
  {
    if s != [] {
      QuotedIfOdd(s[1..], if s[0] == '"' then !quoted else quoted);
    }
  }

  /** At `e` is a `>` outside quotes, and every earlier one is inside. */
  ghost predicate FirstOutside(s: string, quoted: bool, e: nat) {
    && e < |s| && s[e] == '>' && !QuotedAfter(s[..e], quoted)
    && forall h | 0 <= h < e && s[h] == '>' :: QuotedAfter(s[..h], quoted)
  }

  lemma PrefixStep(s: string, quoted: bool)
    requires s != []
    ensures QuotedAfter(s[..0], quoted) == quoted
    ensures forall h | 0 < h <= |s| ::
              QuotedAfter(s[..h], quoted) == QuotedAfter(s[1..][..h - 1], if s[0] == '"' then !quoted else quoted)
  {
    forall h | 0 < h <= |s|
      ensures QuotedAfter(s[..h], quoted) == QuotedAfter(s[1..][..h - 1], if s[0] == '"' then !quoted else quoted)
    {
      assert s[..h][1..] == s[1..][..h - 1];
    }
  }

  lemma FirstOutsideStep(s: string, quoted: bool, e: nat)
    requires 0 < e < |s|
    ensures FirstOutside(s, quoted, e) <==>
            !(s[0] == '>' && !quoted) && FirstOutside(s[1..], if s[0] == '"' then !quoted else quoted, e - 1)
  {
    hide QuotedAfter;
    PrefixStep(s, quoted);
    var t, next := s[1..], if s[0] == '"' then !quoted else quoted;
    assert s[e] == t[e - 1];
    assert forall h | 0 < h < e :: s[h] == t[h - 1];
    if FirstOutside(s, quoted, e) {
      forall h | 0 <= h < e - 1 && t[h] == '>' ensures QuotedAfter(t[..h], next) {
        assert s[h + 1] == '>';
      }
    }
  }

  /** A field is closed at `e` exactly if the first `>` outside quotes is there. */
  lemma {:induction false} CloseAtIs(s: string, quoted: bool, e: nat)
    ensures CloseAt(s, quoted) == Some(e) <==> FirstOutside(s, quoted, e)
  {
    hide QuotedAfter;
    if s != [] && e < |s| {
      PrefixStep(s, quoted);
      if e > 0 {
        hide FirstOutside;
        CloseAtIs(s[1..], if s[0] == '"' then !quoted else quoted, e - 1);
        FirstOutsideStep(s, quoted, e);
      }
    }
  }

  /** A text that closes no field of its own and leaves no quotes open is a field, whole. */
  lemma FieldThenRest(t: string, rest: string)
    requires CloseAt(t, false).None? && !QuotedAfter(t, false)
    ensures Fields("<" + t + ">" + rest) == [t] + Fields(rest)
  {
    hide CloseAt, QuotedAfter;
    var s := "<" + t + ">" + rest;
    assert s[1..] == t + (">" + rest);
    CloseAtSkips(t, ">" + rest, false);
    ClosesHere(rest);
    assert s[1..|t| + 1] == t && s[|t| + 2..] == rest;
  }

  lemma ClosesHere(rest: string)
    ensures CloseAt(">" + rest, false) == Some(0)
  {
  }

  // ---------- values ----------

  /** What a field stands for in a column of the given type. */
  function CellOf(atof: string -> FloatBits, typ: char, field: string): (c: Cell)
    requires typ in "BIFS"
    ensures |field| + 1 < SIZE_LIMIT ==> CellFits(typ, c)
  {
    var t := Trimmed(field, ' ');
    if t == [] then Missing
    else if typ == 'S' then Str(Trimmed(t, '"'))
    else if typ == 'I' then Int(IntOf(t))
    else if typ == 'F' then Float(atof(t))
    else Bool(IntOf(t) == 1)
  }

  /** Strings over the limit stop the parser. */
  predicate FieldOk(typ: char, field: string) {
    typ == 'S' ==> |Trimmed(Trimmed(field, ' '), '"')| <= MAX_STRING
  }

  /** No more fields than columns, each within the limit. */
  predicate LineOk(types: seq<char>, fields: seq<string>) {
    |fields| <= |types| && forall j | 0 <= j < |fields| :: FieldOk(types[j], fields[j])
  }

  predicate KnownTypes(types: seq<char>) {
    forall j | 0 <= j < |types| :: types[j] in "BIFS"
  }

  /** The row of a line: missing values make up for missing fields. */
  function RowOf(atof: string -> FloatBits, types: seq<char>, fields: seq<string>): (r: Row)
    requires KnownTypes(types)
    ensures |r| == |types|
  {
    seq(|types|, j requires 0 <= j < |types| => if j < |fields| then CellOf(atof, types[j], fields[j]) else Missing)
  }

  function LineFields(line: string): (fields: seq<string>)
    ensures forall j | 0 <= j < |fields| :: |fields[j]| <= |line|
  {
    Fields(CStr(line))
  }

  predicate LinesOk(types: seq<char>, lines: seq<string>) {
    forall i | 0 <= i < |lines| :: LineOk(types, LineFields(lines[i]))
  }

  function FileRows(atof: string -> FloatBits, types: seq<char>, lines: seq<string>): (rows: seq<Row>)
    requires KnownTypes(types)
    ensures |rows| == |lines| && Rectangular(types, rows)
  {
    seq(|lines|, i requires 0 <= i < |lines| => RowOf(atof, types, LineFields(lines[i])))
  }

  lemma FileRowsFit(atof: string -> FloatBits, types: seq<char>, lines: seq<string>)
    requires KnownTypes(types) && |types| < SIZE_LIMIT && |lines| < SIZE_LIMIT
    requires forall l <- lines :: |l| + 1 < SIZE_LIMIT
    ensures FrameFits(types, FileRows(atof, types, lines))
  {
    hide LineFields, CellOf, CellFits;
    var rows := FileRows(atof, types, lines);
    forall i | 0 <= i < |rows| ensures RowFits(types, rows[i]) {
      var fields := LineFields(lines[i]);
      forall j | 0 <= j < |types| ensures CellFits(types[j], rows[i][j]) {
        assert CellFits(types[j], Missing) by { MissingFits(types[j]); }
        assert j < |fields| ==> CellFits(types[j], CellOf(atof, types[j], fields[j]));
      }
    }
  }

  lemma MissingFits(typ: char)
    ensures CellFits(typ, Missing)
  {
  }
}
