/**
 The bytes themselves: where each part of an encoded header, schema, column,
 key or message stands, said of the bytes at their positions.
 */
module WireLayout {
  import opened Messages
  import opened Wire

  function Byte(bs: seq<char>, at: nat): nat
    requires at < |bs|
  {
    bs[at] as nat
  }

  /** Four bytes as a number, the least significant first. */
  function HalfWord(bs: seq<char>, at: nat): nat
    requires at + 4 <= |bs|
  {
    Byte(bs, at) + 0x100 * Byte(bs, at + 1) + 0x1_0000 * Byte(bs, at + 2) + 0x100_0000 * Byte(bs, at + 3)
  }

  /** Eight bytes as a number, the least significant first. */
  function Word(bs: seq<char>, at: nat): nat
    requires at + 8 <= |bs|
  {
    HalfWord(bs, at) + 0x1_0000_0000 * HalfWord(bs, at + 4)
  }

  lemma BytesStep(v: nat, n: nat)
    requires n > 0
    ensures Bytes(v, n)[0] as nat == v % 256 && Bytes(v, n)[1..] == Bytes(v / 256, n - 1)
  {
  }

  lemma FourBytes(v: nat, n: nat)
    requires n >= 4
    ensures HalfWord(Bytes(v, n), 0) == v % 0x1_0000_0000
    ensures Bytes(v, n)[4..] == Bytes(v / 0x1_0000_0000, n - 4)
  {
    hide Bytes;
    var bs := Bytes(v, n);
    var v1, v2, v3 := v / 256, v / 256 / 256, v / 256 / 256 / 256;
    BytesStep(v, n);
    BytesStep(v1, n - 1);
    BytesStep(v2, n - 2);
    BytesStep(v3, n - 3);
    assert bs[1] == bs[1..][0] && bs[2] == bs[1..][1..][0] && bs[3] == bs[1..][1..][1..][0];
    assert bs[4..] == bs[1..][1..][1..][1..];
  }

  lemma SizeBytes(v: nat)
    requires v < SIZE_LIMIT
    ensures |EncSize(v)| == 8 && Word(EncSize(v), 0) == v
  {
    hide Bytes;
    var low, high := v % 0x1_0000_0000, v / 0x1_0000_0000;
    FourBytes(v, 8);
    FourBytes(high, 4);
    assert forall i | 0 <= i < 4 :: EncSize(v)[i + 4] == EncSize(v)[4..][i];
  }

  lemma SizeAt(a: seq<char>, v: nat, b: seq<char>)
    requires v < SIZE_LIMIT
    ensures Word(a + EncSize(v) + b, |a|) == v
  {
    hide EncSize;
    SizeBytes(v);
    var s := a + EncSize(v) + b;
    assert forall i | 0 <= i < 8 :: s[|a| + i] == EncSize(v)[i];
  }

  /** A signed number is stored in two's complement. */
  lemma IntBytes(i: int)
    requires -INT_LIMIT <= i < INT_LIMIT
    ensures |EncInt(i)| == 4
    ensures HalfWord(EncInt(i), 0) == if i < 0 then i + 0x1_0000_0000 else i
  {
    hide Bytes;
    FourBytes(if i < 0 then i + 2 * INT_LIMIT else i, 4);
  }

  /** A string is its length with the terminator, its characters, and the terminator. */
  lemma StringBytes(s: string)
    requires |s| + 1 < SIZE_LIMIT
    ensures |EncString(s)| == |s| + 9 && Word(EncString(s), 0) == |s| + 1
    ensures EncString(s)[8..8 + |s|] == s && EncString(s)[8 + |s|] == '\0'
  {
    hide EncSize;
    SizeBytes(|s| + 1);
    assert [] + EncSize(|s| + 1) + (s + ['\0']) == EncString(s);
    SizeAt([], |s| + 1, s + ['\0']);
  }

  // ---------- headers ----------

  /** The kind, the sender, the target, and the number of the message. */
  lemma HeaderBytes(m: Message)
    requires MessageFits(m)
    ensures var h := EncHeader(m);
            && |h| == 32
            && Word(h, 0) == (match m
                              case Status(_, _, _, _) => 0
                              case Register(_, _, _, _, _) => 1
                              case Directory(_, _, _, _, _, _) => 2
                              case Kill(_, _, _) => 3
                              case Get(_, _, _, _) => 4
                              case Put(_, _, _, _, _) => 5
                              case Reply(_, _, _, _, _) => 6)
            && Word(h, 8) == m.sender && Word(h, 16) == m.target && Word(h, 24) == m.id
  {
    hide EncSize, Word;
    var a, b, c, d := EncSize(Kind(m)), EncSize(m.sender), EncSize(m.target), EncSize(m.id);
    SizeBytes(Kind(m));
    SizeBytes(m.sender);
    SizeBytes(m.target);
    SizeBytes(m.id);
    var h := EncHeader(m);
    assert h == [] + a + (b + c + d) == a + b + (c + d) == (a + b) + c + d == (a + b + c) + d + [];
    SizeAt([], Kind(m), b + c + d);
    SizeAt(a, m.sender, c + d);
    SizeAt(a + b, m.target, d);
    SizeAt(a + b + c, m.id, []);
  }

  /** After the header, which takes 32 bytes, comes the payload. */
  lemma MessageBytes(m: Message)
    requires MessageFits(m)
    ensures EncMessage(m)[..32] == EncHeader(m) && EncMessage(m)[32..] == EncPayload(m)
  {
    hide EncHeader, EncPayload;
    HeaderBytes(m);
  }

  // ---------- schemas, keys and values ----------

  /** The width, the height, then one character per column. */
  lemma SchemaBytes(s: Schema)
    requires SchemaFits(s)
    ensures var bs := EncSchema(s);
            && |bs| == 16 + |s.types|
            && Word(bs, 0) == |s.types| && Word(bs, 8) == s.height && bs[16..] == s.types
  {
    hide EncSize, Word;
    var a, b := EncSize(|s.types|), EncSize(s.height);
    SizeBytes(|s.types|);
    SizeBytes(s.height);
    assert EncSchema(s) == [] + a + (b + s.types) == a + b + s.types;
    SizeAt([], |s.types|, b + s.types);
    SizeAt(a, s.height, s.types);
  }

  /** The name as a string, then the node. */
  lemma KeyBytes(k: Key)
    requires KeyFits(k)
    ensures var bs := EncKey(k);
            && |bs| == |k.name| + 17
            && bs[..|k.name| + 9] == EncString(k.name) && Word(bs, |k.name| + 9) == k.node
  {
    hide EncSize, Word, EncString;
    StringBytes(k.name);
    SizeBytes(k.node);
    assert EncKey(k) == EncString(k.name) + EncSize(k.node) + [];
    SizeAt(EncString(k.name), k.node, []);
  }

  /** The length, then the bytes. */
  lemma ValueBytes(v: Blob)
    requires |v| < SIZE_LIMIT
    ensures |EncValue(v)| == |v| + 8 && Word(EncValue(v), 0) == |v| && EncValue(v)[8..] == v
  {
    hide EncSize, Word;
    SizeBytes(|v|);
    assert [] + EncSize(|v|) + v == EncValue(v);
    SizeAt([], |v|, v);
  }

  /** What stands where in the payload of each kind of message. */
  lemma PayloadBytes(m: Message)
    requires MessageFits(m)
    ensures var bs := EncPayload(m);
            match m
            case Status(_, _, _, text) => bs == EncString(text)
            case Register(_, _, _, ip, port) => |bs| >= 8 && Word(bs, 0) == port && bs[8..] == EncString(ip)
            case Directory(_, _, _, clients, addresses, ports) =>
              var n := |EncColumn(addresses)|;
              |bs| >= 8 + n && Word(bs, 0) == clients && bs[8..8 + n] == EncColumn(addresses) && bs[8 + n..] == EncColumn(ports)
            case Kill(_, _, _) => bs == []
            case Get(_, _, _, key) => bs == EncKey(key)
            case Put(_, _, _, key, value) =>
              var n := |key.name| + 17;
              |bs| == n + |value| + 8 && bs[..n] == EncKey(key) && bs[n..] == EncValue(value)
            case Reply(_, _, _, key, value) =>
              var n := |key.name| + 17;
              |bs| == n + |value| + 8 && bs[..n] == EncKey(key) && bs[n..] == EncValue(value)
  {
    hide EncSize, EncString, EncColumn, EncKey, EncValue, Word;
    match m {
      case Register(_, _, _, ip, port) =>
        SizeBytes(port);
        assert EncPayload(m) == [] + EncSize(port) + EncString(ip);
        SizeAt([], port, EncString(ip));
      case Directory(_, _, _, clients, addresses, ports) =>
        SizeBytes(clients);
        assert EncPayload(m) == [] + EncSize(clients) + (EncColumn(addresses) + EncColumn(ports));
        SizeAt([], clients, EncColumn(addresses) + EncColumn(ports));
      case Put(_, _, _, key, value) =>
        KeyBytes(key);
        ValueBytes(value);
      case Reply(_, _, _, key, value) =>
        KeyBytes(key);
        ValueBytes(value);
      case _ =>
    }
  }

  // ---------- columns ----------

  /** How many bytes a value takes. */
  function Width(c: Cell): nat {
    match c
    case Missing => 0
    case Bool(_) => 1
    case Int(_) => 4
    case Float(_) => 4
    case Str(s) => |s| + 9
  }

  /** Where the value of cell `i` begins, counted from the first value. */
  function Offset(cells: seq<Cell>, i: nat): nat
    requires i <= |cells|
  {
    if i == 0 then 0 else Offset(cells, i - 1) + Width(cells[i - 1])
  }

  lemma CellBytes(typ: char, c: Cell)
    requires CellFits(typ, c)
    ensures |EncCell(typ, c)| == Width(c)
    ensures c.Bool? ==> EncCell(typ, c)[0] as nat == if c.b then 1 else 0
    ensures c.Int? ==> HalfWord(EncCell(typ, c), 0) == if c.i < 0 then c.i + 0x1_0000_0000 else c.i
    ensures c.Float? ==> EncCell(typ, c) == c.bits
    ensures c.Str? ==> Word(EncCell(typ, c), 0) == |c.s| + 1 && EncCell(typ, c)[8..] == c.s + ['\0']
  {
    hide EncInt, EncString, HalfWord, Word;
    match c {
      case Int(i) => IntBytes(i);
      case Str(s) =>
        StringBytes(s);
        assert EncString(s)[8..] == EncString(s)[8..8 + |s|] + [EncString(s)[8 + |s|]];
      case _ =>
    }
  }

  lemma {:induction false} OffsetTail(cells: seq<Cell>, i: nat)
    requires 0 < i <= |cells|
    ensures Offset(cells, i) == Width(cells[0]) + Offset(cells[1..], i - 1)
  {
    if i > 1 {
      OffsetTail(cells, i - 1);
    } else {
      assert Offset(cells, 0) == 0;
    }
  }

  lemma {:induction false} CellsBytes(typ: char, cells: seq<Cell>, i: nat)
    requires (forall x <- cells :: CellFits(typ, x)) && i < |cells|
    ensures var vals, at := EncCells(typ, cells), Offset(cells, i);
            at + Width(cells[i]) <= |vals| && vals[at..at + Width(cells[i])] == EncCell(typ, cells[i])
  {
    hide EncCell, CellFits, Width;
    CellBytes(typ, cells[0]);
    var rest := EncCells(typ, cells[1..]);
    if i > 0 {
      CellsBytes(typ, cells[1..], i - 1);
      OffsetTail(cells, i);
      var at := Offset(cells[1..], i - 1);
      assert EncCells(typ, cells)[Width(cells[0])..] == rest;
      assert EncCells(typ, cells)[Width(cells[0]) + at..Width(cells[0]) + at + Width(cells[i])]
          == rest[at..at + Width(cells[i])];
    }
  }

  lemma {:induction false} FlagBytes(cells: seq<Cell>)
    ensures |EncFlags(cells)| == |cells|
    ensures forall i | 0 <= i < |cells| :: EncFlags(cells)[i] as nat == if cells[i].Missing? then 1 else 0
  {
    if cells != [] {
      FlagBytes(cells[1..]);
      var head, tail := EncBool(cells[0].Missing?), EncFlags(cells[1..]);
      assert EncFlags(cells) == head + tail && |head| == 1;
      assert forall i | 0 < i < |cells| :: EncFlags(cells)[i] == tail[i - 1] && cells[i] == cells[1..][i - 1];
    }
  }

  lemma ColumnHead(c: Column)
    requires ColumnFits(c)
    ensures var bs, n := EncColumn(c), |c.cells|;
            && |bs| >= 9 + n && bs[0] == c.typ && Word(bs, 1) == n
            && bs[9..9 + n] == EncFlags(c.cells) && bs[9 + n..] == EncCells(c.typ, c.cells)
  {
    hide EncSize, EncFlags, EncCells, CellFits, Word;
    var n, flags, vals := |c.cells|, EncFlags(c.cells), EncCells(c.typ, c.cells);
    SizeBytes(n);
    FlagBytes(c.cells);
    assert EncColumn(c) == [c.typ] + EncSize(n) + (flags + vals);
    SizeAt([c.typ], n, flags + vals);
  }

  lemma Shifted(s: seq<char>, base: nat, at: nat, n: nat)
    requires base + at + n <= |s|
    ensures s[base..][at..at + n] == s[base + at..base + at + n]
  {
  }

  /** The type, the length, a mark for each cell, then the values that are present. */
  lemma ColumnBytes(c: Column)
    requires ColumnFits(c)
    ensures var bs, n := EncColumn(c), |c.cells|;
            && |bs| >= 9 + n && bs[0] == c.typ && Word(bs, 1) == n
            && (forall i | 0 <= i < n :: bs[9 + i] as nat == if c.cells[i].Missing? then 1 else 0)
            && forall i | 0 <= i < n ::
                 var at := 9 + n + Offset(c.cells, i);
                 at + Width(c.cells[i]) <= |bs| && bs[at..at + Width(c.cells[i])] == EncCell(c.typ, c.cells[i])
  {
    hide EncColumn, EncFlags, EncCells, EncCell, CellFits, Word, Width, Offset;
    ColumnHead(c);
    FlagBytes(c.cells);
    var bs, n := EncColumn(c), |c.cells|;
    var flags := bs[9..9 + n];
    forall i | 0 <= i < n ensures bs[9 + i] as nat == if c.cells[i].Missing? then 1 else 0 {
      assert bs[9 + i] == flags[i];
    }
    forall i | 0 <= i < n
      ensures var at := 9 + n + Offset(c.cells, i);
              at + Width(c.cells[i]) <= |bs| && bs[at..at + Width(c.cells[i])] == EncCell(c.typ, c.cells[i])
    {
      CellsBytes(c.typ, c.cells, i);
      Shifted(bs, 9 + n, Offset(c.cells, i), Width(c.cells[i]));
    }
  }
}
