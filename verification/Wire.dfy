/**
 The byte encodings as functions: what the serializer appends for a value and
 what the deserializer makes of the bytes at its cursor. Numbers are stored
 least significant byte first.
 */
module Wire {
  import opened Messages

  const SIZE_LIMIT := 0x1_0000_0000_0000_0000
  const INT_LIMIT := 0x8000_0000

  /** The outcome of a read: an assertion failed, or a value and the bytes after it. */
  datatype Read<+T> = Fail | Got(value: T, rest: seq<char>) {
    predicate IsFailure() {
      Fail?
    }

    function PropagateFailure<U>(): Read<U>
      requires Fail?
    {
      Fail
    }

    function Extract(): (T, seq<char>)
      requires Got?
    {
      (value, rest)
    }
  }

  // ---------- numbers, bytes and strings ----------

  function Bytes(v: nat, n: nat): (bs: seq<char>)
    ensures |bs| == n
  {
    if n == 0 then [] else [(v % 256) as char] + Bytes(v / 256, n - 1)
  }

  function Number(bs: seq<char>): nat {
    if bs == [] then 0 else bs[0] as int + 256 * Number(bs[1..])
  }

  function Pow256(n: nat): nat {
    if n == 0 then 1 else 256 * Pow256(n - 1)
  }

  lemma {:induction false} NumberOfBytes(v: nat, n: nat)
    requires v < Pow256(n)
    ensures Number(Bytes(v, n)) == v
  {
    if n > 0 {
      NumberOfBytes(v / 256, n - 1);
      assert Bytes(v, n)[1..] == Bytes(v / 256, n - 1);
    }
  }

  function EncSize(v: nat): seq<char> { Bytes(v, 8) }

  function EncInt(i: int): seq<char>
    requires -INT_LIMIT <= i < INT_LIMIT
  {
    Bytes(if i < 0 then i + 2 * INT_LIMIT else i, 4)
  }

  function EncBool(b: bool): seq<char> { [if b then 1 as char else 0 as char] }

  function EncString(s: string): seq<char> { EncSize(|s| + 1) + (s + ['\0']) }

  function ReadBytes(s: seq<char>, n: nat): Read<seq<char>> {
    if |s| < n then Fail else Got(s[..n], s[n..])
  }

  function ReadSize(s: seq<char>): Read<nat> {
    var (bs, s1) :- ReadBytes(s, 8);
    Got(Number(bs), s1)
  }

  function ReadInt(s: seq<char>): Read<int> {
    var (bs, s1) :- ReadBytes(s, 4);
    var v := Number(bs);
    Got(if v >= INT_LIMIT then v - 2 * INT_LIMIT else v, s1)
  }

  function ReadChar(s: seq<char>): Read<char> {
    if s == [] then Fail else Got(s[0], s[1..])
  }

  function ReadBool(s: seq<char>): Read<bool> {
    var (c, s1) :- ReadChar(s);
    Got(c != 0 as char, s1)
  }

  function ReadString(s: seq<char>): Read<string> {
    var (n, s1) :- ReadSize(s);
    var (chars, s2) :- ReadBytes(s1, n);
    if n == 0 || chars[n - 1] != '\0' then Fail else Got(chars[..n - 1], s2)
  }

  lemma BytesRead(bs: seq<char>, rest: seq<char>)
    ensures ReadBytes(bs + rest, |bs|) == Got(bs, rest)
  {
    assert (bs + rest)[..|bs|] == bs && (bs + rest)[|bs|..] == rest;
  }

  lemma SizeRead(v: nat, rest: seq<char>)
    requires v < SIZE_LIMIT
    ensures ReadSize(EncSize(v) + rest) == Got(v, rest)
  {
    BytesRead(EncSize(v), rest);
    assert Pow256(8) == SIZE_LIMIT by {
      assert Pow256(4) == 0x1_0000_0000;
    }
    NumberOfBytes(v, 8);
  }

  lemma IntRead(i: int, rest: seq<char>)
    requires -INT_LIMIT <= i < INT_LIMIT
    ensures ReadInt(EncInt(i) + rest) == Got(i, rest)
  {
    BytesRead(EncInt(i), rest);
    assert Pow256(4) == 2 * INT_LIMIT;
    NumberOfBytes(if i < 0 then i + 2 * INT_LIMIT else i, 4);
  }

  lemma StringRead(s: string, rest: seq<char>)
    requires |s| + 1 < SIZE_LIMIT
    ensures ReadString(EncString(s) + rest) == Got(s, rest)
  {
    hide EncSize, ReadSize;
    var body := s + ['\0'];
    assert EncString(s) + rest == EncSize(|s| + 1) + (body + rest);
    SizeRead(|s| + 1, body + rest);
    BytesRead(body, rest);
    assert body[..|s|] == s;
  }

  // ---------- columns ----------

  predicate CellFits(typ: char, c: Cell) {
    match c
    case Missing => true
    case Bool(_) => typ == 'B'
    case Int(i) => typ == 'I' && -INT_LIMIT <= i < INT_LIMIT
    case Float(bits) => typ == 'F' && |bits| == 4
    case Str(s) => typ == 'S' && |s| + 1 < SIZE_LIMIT
  }

  predicate ColumnFits(c: Column) {
    && c.typ in "BIFS"
    && |c.cells| < SIZE_LIMIT
    && forall x <- c.cells :: CellFits(c.typ, x)
  }

  function EncCell(typ: char, c: Cell): seq<char>
    requires CellFits(typ, c)
  {
    match c
    case Missing => []
    case Bool(b) => EncBool(b)
    case Int(i) => EncInt(i)
    case Float(bits) => bits
    case Str(s) => EncString(s)
  }

  function EncFlags(cells: seq<Cell>): seq<char> {
    if cells == [] then [] else EncBool(cells[0].Missing?) + EncFlags(cells[1..])
  }

  function EncCells(typ: char, cells: seq<Cell>): seq<char>
    requires forall x <- cells :: CellFits(typ, x)
  {
    if cells == [] then [] else EncCell(typ, cells[0]) + EncCells(typ, cells[1..])
  }

  /** The type, the length, all missing marks, then the values that are present. */
  function EncColumn(c: Column): seq<char>
    requires ColumnFits(c)
  {
    [c.typ] + EncSize(|c.cells|) + EncFlags(c.cells) + EncCells(c.typ, c.cells)
  }

  function ReadFlags(s: seq<char>, n: nat): Read<seq<bool>> {
    if n == 0 then Got([], s) else
      var (b, s1) :- ReadBool(s);
      var (bs, s2) :- ReadFlags(s1, n - 1);
      Got([b] + bs, s2)
  }

  function ReadCell(s: seq<char>, typ: char): Read<Cell> {
    if typ == 'B' then var (b, s1) :- ReadBool(s); Got(Bool(b), s1)
    else if typ == 'I' then var (i, s1) :- ReadInt(s); Got(Int(i), s1)
    else if typ == 'F' then var (bits, s1) :- ReadBytes(s, 4); Got(Float(bits), s1)
    else if typ == 'S' then var (t, s1) :- ReadString(s); Got(Str(t), s1)
    else Fail
  }

  function ReadCells(s: seq<char>, typ: char, missing: seq<bool>): Read<seq<Cell>> {
    if missing == [] then Got([], s)
    else if missing[0] then
      var (cs, s1) :- ReadCells(s, typ, missing[1..]);
      Got([Missing] + cs, s1)
    else
      var (c, s1) :- ReadCell(s, typ);
      var (cs, s2) :- ReadCells(s1, typ, missing[1..]);
      Got([c] + cs, s2)
  }

  function ReadColumn(s: seq<char>): Read<Column> {
    var (typ, s1) :- ReadChar(s);
    if typ !in "BIFS" then Fail else
      var (n, s2) :- ReadSize(s1);
      var (missing, s3) :- ReadFlags(s2, n);
      var (cells, s4) :- ReadCells(s3, typ, missing);
      Got(Column(typ, cells), s4)
  }

  function Flags(cells: seq<Cell>): seq<bool> {
    seq(|cells|, i requires 0 <= i < |cells| => cells[i].Missing?)
  }

  lemma {:induction false} FlagsRead(cells: seq<Cell>, rest: seq<char>)
    ensures ReadFlags(EncFlags(cells) + rest, |cells|) == Got(Flags(cells), rest)
  {
    if cells == [] {
      assert EncFlags(cells) + rest == rest;
    } else {
      assert EncFlags(cells) + rest == EncBool(cells[0].Missing?) + (EncFlags(cells[1..]) + rest);
      FlagsRead(cells[1..], rest);
      assert Flags(cells) == [cells[0].Missing?] + Flags(cells[1..]);
    }
  }

  lemma CellRead(typ: char, c: Cell, rest: seq<char>)
    requires CellFits(typ, c) && !c.Missing?
    ensures ReadCell(EncCell(typ, c) + rest, typ) == Got(c, rest)
  {
    match c
    case Bool(b) =>
    case Int(i) => IntRead(i, rest);
    case Float(bits) => BytesRead(bits, rest);
    case Str(s) => StringRead(s, rest);
  }

  lemma {:induction false} CellsRead(typ: char, cells: seq<Cell>, rest: seq<char>)
    requires forall x <- cells :: CellFits(typ, x)
    ensures ReadCells(EncCells(typ, cells) + rest, typ, Flags(cells)) == Got(cells, rest)
  {
    hide ReadCell, CellFits;
    if cells == [] {
      assert EncCells(typ, cells) + rest == rest;
    } else {
      var tail := EncCells(typ, cells[1..]) + rest;
      assert EncCells(typ, cells) + rest == EncCell(typ, cells[0]) + tail;
      CellsRead(typ, cells[1..], rest);
      assert Flags(cells)[1..] == Flags(cells[1..]);
      if cells[0].Missing? {
        assert EncCell(typ, cells[0]) + tail == tail;
      } else {
        CellRead(typ, cells[0], tail);
      }
      assert cells == [cells[0]] + cells[1..];
    }
  }

  /** A column is self-delimiting: it reads back and the cursor stops where it ended. */
  lemma ColumnRead(c: Column, rest: seq<char>)
    requires ColumnFits(c)
    ensures ReadColumn(EncColumn(c) + rest) == Got(c, rest)
  {
    hide EncFlags, EncCells, ReadFlags, ReadCells, EncSize, ReadSize, Flags;
    var vals := EncCells(c.typ, c.cells) + rest;
    var flags := EncFlags(c.cells) + vals;
    assert EncColumn(c) + rest == [c.typ] + (EncSize(|c.cells|) + flags);
    SizeRead(|c.cells|, flags);
    FlagsRead(c.cells, vals);
    CellsRead(c.typ, c.cells, rest);
  }

  // ---------- schemas, keys and values ----------

  predicate SchemaFits(s: Schema) {
    |s.types| < SIZE_LIMIT && s.height < SIZE_LIMIT
  }

  function EncSchema(s: Schema): seq<char> {
    EncSize(|s.types|) + EncSize(s.height) + s.types
  }

  function ReadSchema(s: seq<char>): Read<Schema> {
    var (width, s1) :- ReadSize(s);
    var (height, s2) :- ReadSize(s1);
    var (types, s3) :- ReadBytes(s2, width);
    Got(Schema(types, height), s3)
  }

  lemma SchemaRead(s: Schema, rest: seq<char>)
    requires SchemaFits(s)
    ensures ReadSchema(EncSchema(s) + rest) == Got(s, rest)
  {
    hide EncSize, ReadSize;
    assert EncSchema(s) + rest == EncSize(|s.types|) + (EncSize(s.height) + (s.types + rest));
    SizeRead(|s.types|, EncSize(s.height) + (s.types + rest));
    SizeRead(s.height, s.types + rest);
    BytesRead(s.types, rest);
  }

  predicate KeyFits(k: Key) {
    |k.name| + 1 < SIZE_LIMIT && k.node < SIZE_LIMIT
  }

  function EncKey(k: Key): seq<char> { EncString(k.name) + EncSize(k.node) }

  function ReadKey(s: seq<char>): Read<Key> {
    var (name, s1) :- ReadString(s);
    var (node, s2) :- ReadSize(s1);
    Got(Key(name, node), s2)
  }

  lemma KeyRead(k: Key, rest: seq<char>)
    requires KeyFits(k)
    ensures ReadKey(EncKey(k) + rest) == Got(k, rest)
  {
    hide EncSize, ReadSize, EncString, ReadString;
    assert EncKey(k) + rest == EncString(k.name) + (EncSize(k.node) + rest);
    StringRead(k.name, EncSize(k.node) + rest);
    SizeRead(k.node, rest);
  }

  function EncValue(v: Blob): seq<char> { EncSize(|v|) + v }

  function ReadValue(s: seq<char>): Read<Blob> {
    var (n, s1) :- ReadSize(s);
    ReadBytes(s1, n)
  }

  lemma ValueRead(v: Blob, rest: seq<char>)
    requires |v| < SIZE_LIMIT
    ensures ReadValue(EncValue(v) + rest) == Got(v, rest)
  {
    hide EncSize, ReadSize;
    assert EncValue(v) + rest == EncSize(|v|) + (v + rest);
    SizeRead(|v|, v + rest);
    BytesRead(v, rest);
  }

  // ---------- messages ----------

  function Kind(m: Message): nat {
    match m
    case Status(_, _, _, _) => 0
    case Register(_, _, _, _, _) => 1
    case Directory(_, _, _, _, _, _) => 2
    case Kill(_, _, _) => 3
    case Get(_, _, _, _) => 4
    case Put(_, _, _, _, _) => 5
    case Reply(_, _, _, _, _) => 6
  }

  predicate MessageFits(m: Message) {
    && m.sender < SIZE_LIMIT && m.target < SIZE_LIMIT && m.id < SIZE_LIMIT
    && match m
       case Status(_, _, _, text) => |text| + 1 < SIZE_LIMIT
       case Register(_, _, _, ip, port) => |ip| + 1 < SIZE_LIMIT && port < SIZE_LIMIT
       case Directory(_, _, _, clients, addresses, ports) =>
         && clients < SIZE_LIMIT
         && addresses.typ == 'S' && ColumnFits(addresses)
         && ports.typ == 'I' && ColumnFits(ports)
       case Kill(_, _, _) => true
       case Get(_, _, _, key) => KeyFits(key)
       case Put(_, _, _, key, value) => KeyFits(key) && |value| < SIZE_LIMIT
       case Reply(_, _, _, key, value) => KeyFits(key) && |value| < SIZE_LIMIT
  }

  function EncHeader(m: Message): seq<char> {
    EncSize(Kind(m)) + EncSize(m.sender) + EncSize(m.target) + EncSize(m.id)
  }

  function EncPayload(m: Message): seq<char>
    requires MessageFits(m)
  {
    match m
    case Status(_, _, _, text) => EncString(text)
    case Register(_, _, _, ip, port) => EncSize(port) + EncString(ip)
    case Directory(_, _, _, clients, addresses, ports) =>
      EncSize(clients) + EncColumn(addresses) + EncColumn(ports)
    case Kill(_, _, _) => []
    case Get(_, _, _, key) => EncKey(key)
    case Put(_, _, _, key, value) => EncKey(key) + EncValue(value)
    case Reply(_, _, _, key, value) => EncKey(key) + EncValue(value)
  }

  function EncMessage(m: Message): seq<char>
    requires MessageFits(m)
  {
    EncHeader(m) + EncPayload(m)
  }

  function ReadPair(s: seq<char>): Read<(Key, Blob)> {
    var (key, s1) :- ReadKey(s);
    var (value, s2) :- ReadValue(s1);
    Got((key, value), s2)
  }

  function ReadDirectory(s: seq<char>, a: nat, b: nat, c: nat): Read<Message> {
    var (clients, s1) :- ReadSize(s);
    var (addresses, s2) :- ReadColumn(s1);
    var (ports, s3) :- ReadColumn(s2);
    if addresses.typ != 'S' || ports.typ != 'I' then Fail
    else Got(Directory(a, b, c, clients, addresses, ports), s3)
  }

  function ReadRegister(s: seq<char>, a: nat, b: nat, c: nat): Read<Message> {
    var (port, s1) :- ReadSize(s);
    var (ip, s2) :- ReadString(s1);
    Got(Register(a, b, c, ip, port), s2)
  }

  function ReadPayload(s: seq<char>, kind: nat, a: nat, b: nat, c: nat): Read<Message> {
    if kind == 0 then var (text, s1) :- ReadString(s); Got(Status(a, b, c, text), s1)
    else if kind == 1 then ReadRegister(s, a, b, c)
    else if kind == 2 then ReadDirectory(s, a, b, c)
    else if kind == 3 then Got(Kill(a, b, c), s)
    else if kind == 4 then var (key, s1) :- ReadKey(s); Got(Get(a, b, c, key), s1)
    else if kind == 5 then var (p, s1) :- ReadPair(s); Got(Put(a, b, c, p.0, p.1), s1)
    else if kind == 6 then var (p, s1) :- ReadPair(s); Got(Reply(a, b, c, p.0, p.1), s1)
    else Fail
  }

  function ReadHeader(s: seq<char>): Read<(nat, nat, nat, nat)> {
    var (kind, s1) :- ReadSize(s);
    var (sender, s2) :- ReadSize(s1);
    var (target, s3) :- ReadSize(s2);
    var (id, s4) :- ReadSize(s3);
    Got((kind, sender, target, id), s4)
  }

  /** The kind in the header decides what the payload is read as. */
  function ReadMessage(s: seq<char>): Read<Message> {
    var (h, s1) :- ReadHeader(s);
    ReadPayload(s1, h.0, h.1, h.2, h.3)
  }

  lemma PairRead(key: Key, value: Blob, rest: seq<char>)
    requires KeyFits(key) && |value| < SIZE_LIMIT
    ensures ReadPair(EncKey(key) + EncValue(value) + rest) == Got((key, value), rest)
  {
    hide EncKey, EncValue, ReadKey, ReadValue;
    assert EncKey(key) + EncValue(value) + rest == EncKey(key) + (EncValue(value) + rest);
    KeyRead(key, EncValue(value) + rest);
    ValueRead(value, rest);
  }

  lemma DirectoryRead(m: Message, rest: seq<char>)
    requires m.Directory? && MessageFits(m)
    ensures ReadDirectory(EncPayload(m) + rest, m.sender, m.target, m.id) == Got(m, rest)
  {
    hide EncColumn, ReadColumn, EncSize, ReadSize;
    var s2 := EncColumn(m.ports) + rest;
    var s1 := EncColumn(m.addresses) + s2;
    assert EncPayload(m) + rest == EncSize(m.clients) + s1;
    SizeRead(m.clients, s1);
    ColumnRead(m.addresses, s2);
    ColumnRead(m.ports, rest);
  }

  lemma RegisterRead(m: Message, rest: seq<char>)
    requires m.Register? && MessageFits(m)
    ensures ReadRegister(EncPayload(m) + rest, m.sender, m.target, m.id) == Got(m, rest)
  {
    hide EncString, ReadString, EncSize, ReadSize;
    assert EncPayload(m) + rest == EncSize(m.port) + (EncString(m.ip) + rest);
    SizeRead(m.port, EncString(m.ip) + rest);
    StringRead(m.ip, rest);
  }

  lemma PayloadRead(m: Message, rest: seq<char>)
    requires MessageFits(m)
    ensures ReadPayload(EncPayload(m) + rest, Kind(m), m.sender, m.target, m.id) == Got(m, rest)
  {
    hide EncString, EncKey, EncValue, ReadString, ReadKey, ReadPair, ReadDirectory, ReadRegister;
    match m
    case Status(_, _, _, text) => StringRead(text, rest);
    case Register(_, _, _, _, _) => RegisterRead(m, rest);
    case Directory(_, _, _, _, _, _) => DirectoryRead(m, rest);
    case Kill(_, _, _) => assert EncPayload(m) + rest == rest;
    case Get(_, _, _, key) => KeyRead(key, rest);
    case Put(_, _, _, key, value) => PairRead(key, value, rest);
    case Reply(_, _, _, key, value) => PairRead(key, value, rest);
  }

  lemma HeaderRead(m: Message, rest: seq<char>)
    requires MessageFits(m)
    ensures ReadHeader(EncHeader(m) + rest) == Got((Kind(m), m.sender, m.target, m.id), rest)
  {
    hide EncSize, ReadSize;
    var s3 := EncSize(m.id) + rest;
    var s2 := EncSize(m.target) + s3;
    var s1 := EncSize(m.sender) + s2;
    assert EncHeader(m) + rest == EncSize(Kind(m)) + s1;
    SizeRead(Kind(m), s1);
    SizeRead(m.sender, s2);
    SizeRead(m.target, s3);
    SizeRead(m.id, rest);
  }

  /**
   Every message is self-delimiting, whatever bytes follow it, and comes back
   as the message it was: the right kind with the right fields.
   */
  lemma MessageRead(m: Message, rest: seq<char>)
    requires MessageFits(m)
    ensures ReadMessage(EncMessage(m) + rest) == Got(m, rest)
  {
    hide EncHeader, EncPayload, ReadHeader, ReadPayload, MessageFits;
    assert EncMessage(m) + rest == EncHeader(m) + (EncPayload(m) + rest);
    HeaderRead(m, EncPayload(m) + rest);
    PayloadRead(m, rest);
  }
}
