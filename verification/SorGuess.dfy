/** Which type a column is taken to have, from the fields seen in it. */
module SorGuess {
  import opened Params
  import opened Text
  import opened SorText

  const GUESS_SCHEMA_LINES: nat := 500

  predicate IsNumeric(c: char) {
    c == '-' || c == '+' || c == '.' || IsDigit(c)
  }

  predicate SomeNumeric(s: string) {
    exists i | 0 <= i < |s| :: IsNumeric(s[i])
  }

  predicate AllNumeric(s: string) {
    forall i | 0 <= i < |s| :: IsNumeric(s[i])
  }

  /** The type one field suggests: a single numeric character makes it a number. */
  function ClassOf(field: string): (c: Option<char>)
    ensures c.Some? ==> c.value in "BIFS"
  {
    var t := Trimmed(field, ' ');
    if t == [] then None
    else if !SomeNumeric(t) then Some('S')
    else if '.' in t then Some('F')
    else if IntOf(t) == 0 || IntOf(t) == 1 then Some('B')
    else Some('I')
  }

  /** The type a field would suggest if only numeric characters made a number. */
  function StrictClassOf(field: string): Option<char> {
    var t := Trimmed(field, ' ');
    if t != [] && !AllNumeric(t) then Some('S') else ClassOf(field)
  }

  /** Strings are recognised as the comments say exactly when they hold no numeric character at all. */
  lemma GuessIsStrict(field: string)
    ensures var t := Trimmed(field, ' ');
            ClassOf(field) == StrictClassOf(field) <==> AllNumeric(t) || !SomeNumeric(t)
  {
  }

  /** The letter and the digit of `a1` make a boolean. */
  lemma MixedFieldIsNoString()
    ensures ClassOf("a1") == Some('B') && StrictClassOf("a1") == Some('S')
  {
    var t := "a1";
    assert TrimmedLeft(t, ' ') == t && TrimmedRight(t, ' ') == t;
    assert IsNumeric(t[1]) && !IsNumeric(t[0]);
    assert LeadingDigits(t) == [];
    assert IntOf(t) == 0;
    assert '.' !in t;
  }

  // ---------- the order of the types ----------

  function Rank(typ: char): nat {
    if typ == 'B' then 0 else if typ == 'I' then 1 else if typ == 'F' then 2 else 3
  }

  /** The least type that covers both. */
  function Join(a: char, b: char): char {
    if Rank(a) < Rank(b) then b else a
  }

  function GuessField(typ: char, field: string): char {
    var c := ClassOf(field);
    if c.None? then typ else Join(typ, c.value)
  }

  function GuessLine(types: seq<char>, fields: seq<string>): (guess: seq<char>)
    ensures |guess| == |types|
  {
    seq(|types|, j requires 0 <= j < |types| => if j < |fields| then GuessField(types[j], fields[j]) else types[j])
  }

  function GuessLines(types: seq<char>, lines: seq<seq<string>>): (guess: seq<char>)
    ensures |guess| == |types|
  {
    if lines == [] then types else GuessLine(GuessLines(types, lines[..|lines| - 1]), lines[|lines| - 1])
  }

  function Unguessed(n: nat): (types: seq<char>)
    ensures |types| == n
  {
    seq(n, _ => 'B')
  }

  /** Some field in column `j` of the lines suggests `typ`. */
  ghost predicate Suggested(lines: seq<seq<string>>, j: nat, typ: char) {
    exists fields <- lines :: j < |fields| && ClassOf(fields[j]) == Some(typ)
  }

  lemma SuggestedMore(lines: seq<seq<string>>, fields: seq<string>, j: nat, typ: char)
    ensures Suggested(lines + [fields], j, typ) <==>
            Suggested(lines, j, typ) || (j < |fields| && ClassOf(fields[j]) == Some(typ))
  {
    hide ClassOf;
    assert fields in lines + [fields];
    assert forall f <- lines :: f in lines + [fields];
  }

  lemma NothingSuggested(j: nat)
    ensures forall typ :: !Suggested([], j, typ)
  {
  }

  /** The guess is the greatest type that some field suggests, and never below the least. */
  lemma {:induction false} GuessIsGreatest(n: nat, lines: seq<seq<string>>, j: nat)
    requires j < n
    ensures var guess := GuessLines(Unguessed(n), lines)[j];
            && guess in "BIFS"
            && (guess == 'B' || Suggested(lines, j, guess))
            && forall typ :: Suggested(lines, j, typ) ==> Rank(typ) <= Rank(guess)
  {
    hide ClassOf, Suggested;
    if lines == [] {
      NothingSuggested(j);
    } else {
      var before, fields := lines[..|lines| - 1], lines[|lines| - 1];
      assert lines == before + [fields];
      GuessIsGreatest(n, before, j);
      forall typ
        ensures Suggested(lines, j, typ) <==>
                Suggested(before, j, typ) || (j < |fields| && ClassOf(fields[j]) == Some(typ))
      {
        SuggestedMore(before, fields, j, typ);
      }
    }
  }

  /** The order of the lines does not matter, nor does seeing one twice. */
  lemma GuessIgnoresOrder(n: nat, lines: seq<seq<string>>, lines': seq<seq<string>>)
    requires forall l :: l in lines <==> l in lines'
    ensures GuessLines(Unguessed(n), lines) == GuessLines(Unguessed(n), lines')
    ensures MaxFields(lines) == MaxFields(lines')
  {
    hide GuessLines, ClassOf, Suggested;
    forall j | 0 <= j < n ensures GuessLines(Unguessed(n), lines)[j] == GuessLines(Unguessed(n), lines')[j] {
      GuessIsGreatest(n, lines, j);
      GuessIsGreatest(n, lines', j);
      SameSuggestions(lines, lines', j);
    }
    MaxFieldsIs(lines);
    MaxFieldsIs(lines');
  }

  lemma SameSuggestions(lines: seq<seq<string>>, lines': seq<seq<string>>, j: nat)
    requires forall l :: l in lines <==> l in lines'
    ensures forall typ :: Suggested(lines, j, typ) <==> Suggested(lines', j, typ)
  {
  }

  function MaxFields(lines: seq<seq<string>>): nat {
    if lines == [] then 0
    else
      var m, l := MaxFields(lines[..|lines| - 1]), |lines[|lines| - 1]|;
      if m < l then l else m
  }

  lemma {:induction false} MaxFieldsIs(lines: seq<seq<string>>)
    ensures forall l <- lines :: |l| <= MaxFields(lines)
    ensures MaxFields(lines) > 0 ==> exists l <- lines :: |l| == MaxFields(lines)
  {
    if lines != [] {
      var before, last := lines[..|lines| - 1], lines[|lines| - 1];
      assert lines == before + [last];
      MaxFieldsIs(before);
    }
  }
}
