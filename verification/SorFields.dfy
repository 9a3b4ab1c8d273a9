/** Single fields of SoR text: which strings keep their field together, and what a broken field gives. */
module SorFields {
  import opened Params
  import opened Messages
  import opened Text
  import opened Wire
  import opened Layout
  import opened SorText

  lemma {:induction false} QuotedConcat(a: string, b: string, quoted: bool)
    ensures QuotedAfter(a + b, quoted) == QuotedAfter(b, QuotedAfter(a, quoted))
  {
    if a == [] {
      assert a + b == b;
    } else {
      assert (a + b)[1..] == a[1..] + b;
      QuotedConcat(a[1..], b, if a[0] == '"' then !quoted else quoted);
    }
  }

  /** A field is never closed inside a text exactly if every `>` in it stands between quotes. */
  lemma {:induction false} NeverClosed(s: string, quoted: bool)
    ensures CloseAt(s, quoted).None? <==>
            forall h | 0 <= h < |s| && s[h] == '>' :: QuotedAfter(s[..h], quoted)
  {
    var e := CloseAt(s, quoted);
    if e.Some? {
      CloseAtIs(s, quoted, e.value);
    } else if s != [] {
      var next := if s[0] == '"' then !quoted else quoted;
      NeverClosed(s[1..], next);
      forall h | 0 <= h < |s| && s[h] == '>' ensures QuotedAfter(s[..h], quoted) {
        if h > 0 {
          assert s[1..][h - 1] == s[h] && s[..h][1..] == s[1..][..h - 1];
        }
      }
    }
  }

  lemma {:induction false} PlainText(t: string)
    requires '"' !in t && '>' !in t
    ensures CloseAt(t, false).None? && !QuotedAfter(t, false)
  {
    if t != [] {
      PlainText(t[1..]);
    }
  }

  function Quoted(s: string): string {
    "\"" + s + "\""
  }

  /** In quotes, a string keeps its field together if its own quotes pair up around no `>`. */
  predicate Contained(s: string) {
    && !Odd(Quotes(s))
    && forall h | 0 <= h < |s| && s[h] == '>' :: !Odd(Quotes(s[..h]))
  }

  lemma ContainedMeans(s: string)
    ensures Contained(s) <==> CloseAt(s, true).None? && QuotedAfter(s, true)
  {
    hide CloseAt, QuotedAfter, Quotes;
    NeverClosed(s, true);
    QuotedIfOdd(s, true);
    forall h | 0 <= h < |s| ensures QuotedAfter(s[..h], true) == !Odd(Quotes(s[..h])) {
      QuotedIfOdd(s[..h], true);
    }
  }

  lemma QuoteOpens(s: string, quoted: bool)
    ensures var e := CloseAt(s, !quoted);
            CloseAt("\"" + s, quoted) == if e.None? then None else Some(e.value + 1)
    ensures QuotedAfter("\"" + s, quoted) == QuotedAfter(s, !quoted)
  {
    assert ("\"" + s)[1..] == s;
  }

  lemma ContainedIsField(s: string, rest: string)
    requires Contained(s)
    ensures Fields("<" + Quoted(s) + ">" + rest) == [Quoted(s)] + Fields(rest)
  {
    hide CloseAt, QuotedAfter, Fields, Contained;
    ContainedMeans(s);
    assert Quoted(s) == "\"" + (s + "\"");
    assert "\"" == "\"" + "";
    QuoteOpens(s + "\"", false);
    CloseAtSkips(s, "\"", true);
    QuotedConcat(s, "\"", true);
    QuoteOpens("", true);
    PlainText("");
    FieldThenRest(Quoted(s), rest);
  }

  // ---------- one string ----------

  lemma {:induction false} TrimKeeps(s: string, c: char)
    requires s == [] || (s[0] != c && s[|s| - 1] != c)
    ensures Trimmed(s, c) == s
  {
  }

  predicate NoQuoteAtEnds(s: string) {
    s == [] || (s[0] != '"' && s[|s| - 1] != '"')
  }

  /** Trimming a quoted string yields the string exactly if it has no quote at either end. */
  lemma TrimQuoted(s: string)
    ensures Trimmed(Quoted(s), ' ') == Quoted(s)
    ensures Trimmed(Quoted(s), '"') == s <==> NoQuoteAtEnds(s)
  {
    hide Trimmed, TrimmedLeft, TrimmedRight, Quoted;
    assert Quoted(s) != [] && Quoted(s)[0] == Quoted(s)[|Quoted(s)| - 1] == '"' by {
      QuotedEnds(s);
    }
    TrimKeeps(Quoted(s), ' ');
    if NoQuoteAtEnds(s) {
      UnquotesPlain(s);
    }
  }

  lemma QuotedEnds(s: string)
    ensures Quoted(s) != [] && Quoted(s)[0] == Quoted(s)[|Quoted(s)| - 1] == '"'
  {
  }

  lemma UnquotesPlain(s: string)
    requires NoQuoteAtEnds(s)
    ensures Trimmed(Quoted(s), '"') == s
  {
    hide Trimmed, TrimmedLeft, TrimmedRight;
    TrimUndoesPadding('"', 1, s, 1);
    assert Copies('"', 1) == "\"";
  }

  lemma NothingLeft()
    ensures Fields("") == []
  {
  }

  lemma OneField(line: string)
    requires line != [] && line[0] == '<'
    ensures var e := CloseAt(line[1..], false);
            if e.None? then Fields(line) == [] else Fields(line) != [] && Fields(line)[0] == line[1..e.value + 1]
  {
  }

  // ---------- counting brackets ----------

  function Closers(s: string): nat {
    if s == [] then 0 else Closers(s[1..]) + if s[0] == '>' then 1 else 0
  }

  lemma {:induction false} ClosersConcat(a: string, b: string)
    ensures Closers(a + b) == Closers(a) + Closers(b)
  {
    if a == [] {
      assert a + b == b;
    } else {
      assert (a + b)[1..] == a[1..] + b;
      ClosersConcat(a[1..], b);
    }
  }

  lemma {:induction false} LeftKeepsClosers(s: string, c: char)
    requires c != '>'
    ensures Closers(TrimmedLeft(s, c)) == Closers(s)
  {
    if s != [] && s[0] == c {
      LeftKeepsClosers(s[1..], c);
    }
  }

  lemma {:induction false} RightKeepsClosers(s: string, c: char)
    requires c != '>'
    ensures Closers(TrimmedRight(s, c)) == Closers(s)
  {
    if s != [] && s[|s| - 1] == c {
      RightKeepsClosers(s[..|s| - 1], c);
      assert s == s[..|s| - 1] + [c];
      ClosersConcat(s[..|s| - 1], [c]);
    }
  }

  lemma TrimKeepsClosers(s: string, c: char)
    requires c != '>'
    ensures Closers(Trimmed(s, c)) == Closers(s)
  {
    LeftKeepsClosers(s, c);
    RightKeepsClosers(TrimmedLeft(s, c), c);
  }

  lemma {:induction false} LeftKeepsChars(s: string, c: char, x: char)
    ensures x in TrimmedLeft(s, c) ==> x in s
  {
    if s != [] && s[0] == c {
      LeftKeepsChars(s[1..], c, x);
    }
  }

  lemma TrimKeepsChars(s: string, c: char, x: char)
    ensures x in Trimmed(s, c) ==> x in s
  {
    hide TrimmedLeft;
    LeftKeepsChars(s, c, x);
  }

  /** Scanned fields are made of characters of the line. */
  lemma {:induction false} FieldsKeepChars(line: string, x: char)
    requires x !in line
    ensures forall f <- Fields(line) :: x !in f
    decreases |line|
  {
    hide CloseAt;
    if line != [] {
      if line[0] != '<' {
        FieldsKeepChars(line[1..], x);
      } else {
        var e := CloseAt(line[1..], false);
        if e.Some? {
          FieldsKeepChars(line[e.value + 2..], x);
          assert x !in line[1..e.value + 1];
        }
      }
    }
  }

  // ---------- broken fields ----------

  /** A string that does not keep its field together yields no field, or one with another number of `>`. */
  lemma BrokenField(s: string, rest: string)
    requires !Contained(s)
    ensures var fields := Fields("<" + Quoted(s) + ">" + rest);
            fields == [] || Closers(fields[0]) != Closers(s)
  {
    hide Fields, Contained, CloseAt, QuotedAfter, Closers;
    ContainedMeans(s);
    var line, after := "<" + Quoted(s) + ">" + rest, "\"" + (">" + rest);
    assert line[1..] == "\"" + (s + after);
    QuoteOpens(s + after, false);
    OneField(line);
    var e := CloseAt(s, true);
    if e.Some? {
      CloseAtFirst(s, after, true);
      ClosedEarly(s, e.value);
      assert line[1..e.value + 2] == "\"" + s[..e.value];
    } else {
      CloseAtSkips(s, after, true);
      QuoteOpens(">" + rest, false);
      GoesOn(rest);
      var late := CloseAt(rest, true);
      if late.Some? {
        ClosedLate(s, rest[..late.value]);
        assert line[1..|s| + late.value + 4] == Quoted(s) + (">" + rest[..late.value]);
      }
    }
  }

  lemma {:induction false} GoesOn(rest: string)
    ensures var e := CloseAt(rest, true); CloseAt(">" + rest, true) == if e.None? then None else Some(e.value + 1)
  {
    assert (">" + rest)[1..] == rest;
  }

  lemma ClosedEarly(s: string, e: nat)
    requires e < |s| && s[e] == '>'
    ensures Closers("\"" + s[..e]) < Closers(s)
  {
    assert s == s[..e] + (">" + s[e + 1..]);
    ClosersConcat(s[..e], ">" + s[e + 1..]);
    ClosersConcat(">", s[e + 1..]);
    ClosersConcat("\"", s[..e]);
    OneCloser();
  }

  lemma ClosedLate(s: string, more: string)
    ensures Closers(Quoted(s) + (">" + more)) > Closers(s)
  {
    ClosersConcat(Quoted(s), ">" + more);
    ClosersConcat(">", more);
    ClosersConcat("\"" + s, "\"");
    ClosersConcat("\"", s);
    OneCloser();
  }

  lemma OneCloser()
    ensures Closers(">") == 1 && Closers("\"") == 0
  {
    assert ">"[1..] == "" && "\""[1..] == "";
  }

  /** The value of a broken field is never the string that was printed. */
  lemma BrokenValue(atof: string -> FloatBits, s: string, rest: string)
    requires !Contained(s)
    ensures var fields := Fields("<" + Quoted(s) + ">" + rest);
            fields == [] || CellOf(atof, 'S', fields[0]) != Str(s)
  {
    hide Fields, Contained, Closers, Trimmed;
    BrokenField(s, rest);
    var fields := Fields("<" + Quoted(s) + ">" + rest);
    if fields != [] {
      TrimKeepsClosers(fields[0], ' ');
      TrimKeepsClosers(Trimmed(fields[0], ' '), '"');
    }
  }

  /** The value of a field that holds a quoted string. */
  lemma QuotedValue(atof: string -> FloatBits, s: string)
    ensures CellOf(atof, 'S', Quoted(s)) == Str(Trimmed(Quoted(s), '"'))
    ensures FieldOk('S', Quoted(s)) <==> |Trimmed(Quoted(s), '"')| <= MAX_STRING
    ensures CellOf(atof, 'S', Quoted(s)) == Str(s) <==> NoQuoteAtEnds(s)
  {
    hide Trimmed, Quoted, NoQuoteAtEnds;
    TrimQuoted(s);
    QuotedEnds(s);
  }

  // ---------- whole lines ----------

  /** A text that closes no field and leaves no quotes open. */
  predicate Whole(t: string) {
    CloseAt(t, false).None? && !QuotedAfter(t, false)
  }

  /** Fields laid out in a line, each behind some other text. */
  function Laid(gaps: seq<string>, texts: seq<string>, tail: string): string
    requires |gaps| == |texts|
  {
    if texts == [] then tail else gaps[0] + ("<" + texts[0] + ">" + Laid(gaps[1..], texts[1..], tail))
  }

  lemma {:induction false} GapIsSkipped(gap: string, rest: string)
    requires '<' !in gap
    ensures Fields(gap + rest) == Fields(rest)
  {
    if gap == [] {
      assert gap + rest == rest;
    } else {
      assert (gap + rest)[1..] == gap[1..] + rest;
      GapIsSkipped(gap[1..], rest);
    }
  }

  /** What stands outside brackets is no part of any field, nor is a field that is never closed. */
  lemma {:induction false} LaidFields(gaps: seq<string>, texts: seq<string>, gap: string, open_: Option<string>)
    requires |gaps| == |texts| && '<' !in gap && (open_.Some? ==> CloseAt(open_.value, false).None?)
    requires forall j | 0 <= j < |texts| :: '<' !in gaps[j] && Whole(texts[j])
    ensures Fields(Laid(gaps, texts, gap + if open_.Some? then "<" + open_.value else "")) == texts
  {
    hide CloseAt, QuotedAfter, Fields;
    var tail := gap + if open_.Some? then "<" + open_.value else "";
    if texts == [] {
      GapIsSkipped(gap, if open_.Some? then "<" + open_.value else "");
      NothingLeft();
      if open_.Some? {
        assert ("<" + open_.value)[1..] == open_.value;
        OneField("<" + open_.value);
      }
    } else {
      var rest := Laid(gaps[1..], texts[1..], tail);
      LaidFields(gaps[1..], texts[1..], gap, open_);
      GapIsSkipped(gaps[0], "<" + texts[0] + ">" + rest);
      FieldThenRest(texts[0], rest);
    }
  }
}
