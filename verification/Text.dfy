/** Decimal printing and the names of chunk keys. */
module Text {
  predicate IsDigit(c: char) {
    '0' <= c <= '9'
  }

  predicate AllDigits(s: string) {
    forall c <- s :: IsDigit(c)
  }

  function Decimal(n: nat): (s: string)
    ensures s != [] && AllDigits(s)
  {
    var digit := '0' + (n % 10) as char;
    if n < 10 then [digit] else Decimal(n / 10) + [digit]
  }

  /** The number a digit string denotes. */
  function DecimalValue(s: string): int {
    if s == [] then 0
    else 10 * DecimalValue(s[..|s| - 1]) + (s[|s| - 1] as int - '0' as int)
  }

  lemma {:induction false} DecimalRoundTrip(n: nat)
    ensures DecimalValue(Decimal(n)) == n
  {
    var digit := '0' + (n % 10) as char;
    if n < 10 {
      assert [digit][..0] == [];
    } else {
      assert Decimal(n)[..|Decimal(n)| - 1] == Decimal(n / 10);
      DecimalRoundTrip(n / 10);
    }
  }

  function Pow10(k: nat): nat {
    if k == 0 then 1 else 10 * Pow10(k - 1)
  }

  /** Numbers are printed in base ten, without leading zeros. */
  lemma {:induction false} DecimalLength(n: nat, k: nat)
    requires k > 0
    ensures |Decimal(n)| <= k <==> n < Pow10(k)
  {
    if n >= 10 {
      if k == 1 {
        assert Pow10(1) == 10 * Pow10(0);
      } else {
        DecimalLength(n / 10, k - 1);
        assert n < 10 * Pow10(k - 1) <==> n / 10 < Pow10(k - 1);
      }
    } else {
      Pow10Positive(k - 1);
    }
  }

  lemma {:induction false} Pow10Positive(k: nat)
    ensures Pow10(k) > 0
  {
    if k > 0 {
      Pow10Positive(k - 1);
    }
  }

  /** A C string ends at its first NUL. */
  function CStr(s: string): (r: string)
    ensures r <= s && '\0' !in r
    ensures r == s <==> '\0' !in s
  {
    if s == [] || s[0] == '\0' then [] else
      var rest := CStr(s[1..]);
      assert s == [s[0]] + s[1..];
      [s[0]] + rest
  }

  function ChunkName(name: string, col: nat, chunk: nat): string {
    CStr(name) + "-column" + Decimal(col) + "-chunk" + Decimal(chunk)
  }

  /** The name of a frame, then column and chunk. */
  lemma ChunkNameReads()
    ensures ChunkName("df", 0, 12) == "df-column0-chunk12"
  {
    assert Decimal(12) == Decimal(1) + "2";
    assert CStr("df") == "df";
  }

  /** A trailing run of digits is fixed by the text once a non-digit precedes it. */
  lemma DigitTail(a: string, d: string, b: string, e: string)
    requires a != [] && !IsDigit(a[|a| - 1]) && AllDigits(d)
    requires b != [] && !IsDigit(b[|b| - 1]) && AllDigits(e)
    requires a + d == b + e
    ensures a == b && d == e
  {
    var s := a + d;
    assert s == b + e;
    assert !IsDigit(s[|a| - 1]) && !IsDigit(s[|b| - 1]);
    assert forall i | |a| <= i < |s| :: s[i] in d;
    assert forall i | |b| <= i < |s| :: s[i] in e;
    assert |a| == |b|;
    assert (a + d)[..|a|] == a && (b + e)[..|b|] == b;
    assert (a + d)[|a|..] == d && (b + e)[|b|..] == e;
  }

  lemma SameTail(a: string, b: string, t: string)
    requires a + t == b + t
    ensures a == b
  {
    assert |a| == |b|;
    assert (a + t)[..|a|] == a && (b + t)[..|b|] == b;
  }

  /**
   Chunk names agree exactly when chunk, column and the name up to its first
   NUL agree.
   */
  lemma ChunkNameInjective(name: string, col: nat, chunk: nat, name': string, col': nat, chunk': nat)
    ensures ChunkName(name, col, chunk) == ChunkName(name', col', chunk') <==>
            CStr(name) == CStr(name') && col == col' && chunk == chunk'
  {
    if ChunkName(name, col, chunk) == ChunkName(name', col', chunk') {
      var a, a' := CStr(name) + "-column", CStr(name') + "-column";
      var b, b' := a + Decimal(col), a' + Decimal(col');
      DigitTail(b + "-chunk", Decimal(chunk), b' + "-chunk", Decimal(chunk'));
      SameTail(b, b', "-chunk");
      DigitTail(a, Decimal(col), a', Decimal(col'));
      SameTail(CStr(name), CStr(name'), "-column");
      DecimalRoundTrip(chunk);
      DecimalRoundTrip(chunk');
      DecimalRoundTrip(col);
      DecimalRoundTrip(col');
    }
  }

  /** Names without a NUL, as every key in the system has, are told apart in all three parts. */
  lemma ChunkNamesDistinct(name: string, col: nat, chunk: nat, name': string, col': nat, chunk': nat)
    requires '\0' !in name && '\0' !in name'
    requires (name, col, chunk) != (name', col', chunk')
    ensures ChunkName(name, col, chunk) != ChunkName(name', col', chunk')
  {
    ChunkNameInjective(name, col, chunk, name', col', chunk');
  }

  /** A buffer that builds a string piece by piece in a growing array. */
  class StrBuff {
    var val: array<char>
    var size: nat
    ghost var consumed: bool

    ghost predicate Valid()
      reads this
    {
      !consumed && val.Length >= 10 && size < val.Length
    }

    ghost function Contents(): string
      requires Valid()
      reads this, val
    {
      val[..size]
    }

    constructor ()
      ensures Valid() && fresh(val) && Contents() == []
    {
      val := new char[10];
      size := 0;
      consumed := false;
    }

    /** Makes room for `step` more characters and a terminator. */
    method GrowBy(step: nat)
      requires Valid()
      modifies this`val
      ensures Valid() && (val == old(val) || fresh(val))
      ensures size + step < val.Length
      ensures Contents() == old(Contents())
    {
      if step + size < val.Length {
        return;
      }
      var capacity := val.Length * 2;
      if step + size >= capacity {
        capacity := capacity + step;
      }
      var bigger := new char[capacity];
      forall i | 0 <= i < size {
        bigger[i] := val[i];
      }
      val := bigger;
    }

    /** Appends a C string: its characters up to the first NUL. */
    method C(str: string)
      requires Valid()
      modifies this, val
      ensures Valid() && (val == old(val) || fresh(val))
      ensures Contents() == old(Contents()) + CStr(str)
    {
      hide CStr;
      var text := CStr(str);
      GrowBy(|text|);
      forall i | 0 <= i < |text| {
        val[size + i] := text[i];
      }
      size := size + |text|;
    }

    method CNum(n: nat)
      requires Valid()
      modifies this, val
      ensures Valid() && (val == old(val) || fresh(val))
      ensures Contents() == old(Contents()) + Decimal(n)
    {
      assert '\0' !in Decimal(n);
      C(Decimal(n));
    }

    /** Hands out the text, terminated; the buffer can be read only once. */
    method Get() returns (s: string)
      requires Valid()
      modifies this, val
      ensures s == old(Contents())
      ensures consumed
    {
      GrowBy(1);
      val[size] := '\0';
      s := val[..size];
      consumed := true;
    }
  }

  /** The name under which a chunk of a column is stored, built as the loaders build it. */
  method BuildChunkName(name: string, col: nat, chunk: nat) returns (s: string)
    ensures s == ChunkName(name, col, chunk)
  {
    hide CStr, Decimal;
    var sb := new StrBuff();
    sb.C(name);
    var column, infix := "-column", "-chunk";
    assert '\0' !in column && '\0' !in infix;
    sb.C(column);
    assert sb.Contents() == CStr(name) + column;
    sb.CNum(col);
    sb.C(infix);
    assert sb.Contents() == CStr(name) + column + Decimal(col) + infix;
    sb.CNum(chunk);
    s := sb.Get();
  }
}
