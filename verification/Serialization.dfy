/**
 The serializer, which appends bytes, and the deserializer, which moves a
 cursor over them. `None` is a read that fails one of the source's assertions.
 */
module Serialization {
  import opened Params
  import opened Messages
  import opened Wire

  class Serializer {
    var data: seq<char>

    constructor ()
      ensures data == []
    {
      data := [];
    }

    method WriteChars(chars: seq<char>)
      modifies this
      ensures data == old(data) + chars
    {
      for i := 0 to |chars|
        invariant data == old(data) + chars[..i]
      {
        data := data + [chars[i]];
      }
    }

    /** Appends the `n` bytes of a number as they lie in memory. */
    method WriteNumber(v: nat, n: nat)
      modifies this
      ensures data == old(data) + Bytes(v, n)
    {
      var left := v;
      for i := 0 to n
        invariant data + Bytes(left, n - i) == old(data) + Bytes(v, n)
      {
        var byte := (left % 256) as char;
        assert data + Bytes(left, n - i) == data + [byte] + Bytes(left / 256, n - i - 1);
        data := data + [byte];
        left := left / 256;
      }
    }

    method WriteSize(v: nat)
      modifies this
      ensures data == old(data) + EncSize(v)
    {
      WriteNumber(v, 8);
    }

    method WriteInt(i: int)
      requires -INT_LIMIT <= i < INT_LIMIT
      modifies this
      ensures data == old(data) + EncInt(i)
    {
      WriteNumber(if i < 0 then i + 2 * INT_LIMIT else i, 4);
    }

    method WriteBool(b: bool)
      modifies this
      ensures data == old(data) + EncBool(b)
    {
      WriteChars([if b then 1 as char else 0 as char]);
    }

    method WriteString(s: string)
      modifies this
      ensures data == old(data) + EncString(s)
    {
      WriteSize(|s| + 1);
      WriteChars(s + ['\0']);
    }

    method WriteCell(typ: char, c: Cell)
      requires CellFits(typ, c)
      modifies this
      ensures data == old(data) + EncCell(typ, c)
    {
      match c
      case Missing => assert EncCell(typ, c) == [];
      case Bool(b) => WriteBool(b);
      case Int(i) => WriteInt(i);
      case Float(bits) => WriteChars(bits);
      case Str(s) => WriteString(s);
    }

    method WriteFlags(cells: seq<Cell>)
      modifies this
      ensures data == old(data) + EncFlags(cells)
    {
      for i := 0 to |cells|
        invariant data + EncFlags(cells[i..]) == old(data) + EncFlags(cells)
      {
        assert data + EncFlags(cells[i..]) == data + EncBool(cells[i].Missing?) + EncFlags(cells[i + 1..]);
        WriteBool(cells[i].Missing?);
      }
    }

    method WriteCells(typ: char, cells: seq<Cell>)
      requires forall x <- cells :: CellFits(typ, x)
      modifies this
      ensures data == old(data) + EncCells(typ, cells)
    {
      for i := 0 to |cells|
        invariant data + EncCells(typ, cells[i..]) == old(data) + EncCells(typ, cells)
      {
        assert data + EncCells(typ, cells[i..]) == data + EncCell(typ, cells[i]) + EncCells(typ, cells[i + 1..]);
        WriteCell(typ, cells[i]);
      }
    }

    method WriteColumn(c: Column)
      requires ColumnFits(c)
      modifies this
      ensures data == old(data) + EncColumn(c)
    {
      WriteChars([c.typ]);
      WriteSize(|c.cells|);
      WriteFlags(c.cells);
      WriteCells(c.typ, c.cells);
    }

    method WriteSchema(s: Schema)
      modifies this
      ensures data == old(data) + EncSchema(s)
    {
      WriteSize(|s.types|);
      WriteSize(s.height);
      WriteChars(s.types);
    }

    method WriteKey(k: Key)
      modifies this
      ensures data == old(data) + EncKey(k)
    {
      WriteString(k.name);
      WriteSize(k.node);
    }

    method WriteValue(v: Blob)
      modifies this
      ensures data == old(data) + EncValue(v)
    {
      WriteSize(|v|);
      WriteChars(v);
    }

    method WriteHeader(m: Message)
      modifies this
      ensures data == old(data) + EncHeader(m)
    {
      WriteSize(Kind(m));
      WriteSize(m.sender);
      WriteSize(m.target);
      WriteSize(m.id);
    }

    method WriteDirectory(m: Message)
      requires m.Directory? && MessageFits(m)
      modifies this
      ensures data == old(data) + EncPayload(m)
    {
      WriteSize(m.clients);
      WriteColumn(m.addresses);
      WriteColumn(m.ports);
    }

    method WriteRegister(m: Message)
      requires m.Register? && MessageFits(m)
      modifies this
      ensures data == old(data) + EncPayload(m)
    {
      WriteSize(m.port);
      WriteString(m.ip);
    }

    method WritePair(key: Key, value: Blob)
      modifies this
      ensures data == old(data) + (EncKey(key) + EncValue(value))
    {
      WriteKey(key);
      WriteValue(value);
    }

    method WritePayload(m: Message)
      requires MessageFits(m)
      modifies this
      ensures data == old(data) + EncPayload(m)
    {
      match m
      case Status(_, _, _, text) => WriteString(text);
      case Register(_, _, _, _, _) => WriteRegister(m);
      case Directory(_, _, _, _, _, _) => WriteDirectory(m);
      case Kill(_, _, _) => assert EncPayload(m) == [];
      case Get(_, _, _, key) => WriteKey(key);
      case Put(_, _, _, key, value) => WritePair(key, value);
      case Reply(_, _, _, key, value) => WritePair(key, value);
    }

    method WriteMessage(m: Message)
      requires MessageFits(m)
      modifies this
      ensures data == old(data) + EncMessage(m)
    {
      hide EncHeader, EncPayload;
      WriteHeader(m);
      WritePayload(m);
    }
  }

  class Deserializer {
    const data: seq<char>
    var cursor: nat

    constructor (data: seq<char>)
      ensures this.data == data && Valid() && Ahead() == data
    {
      this.data := data;
      cursor := 0;
    }

    ghost predicate Valid()
      reads this
    {
      cursor <= |data|
    }

    ghost function Ahead(): seq<char>
      requires Valid()
      reads this
    {
      data[cursor..]
    }

    /** The result and the new cursor are what `spec` says. */
    ghost predicate Did<T(!new)>(r: Option<T>, spec: Read<T>)
      requires Valid()
      reads this
    {
      match spec
      case Fail => r == None
      case Got(v, rest) => r == Some(v) && Ahead() == rest
    }

    method ReadNextChar() returns (c: Option<char>)
      requires Valid()
      modifies this
      ensures Valid() && Did(c, ReadChar(old(Ahead())))
    {
      if cursor < |data| {
        c := Some(data[cursor]);
        cursor := cursor + 1;
      } else {
        c := None;
      }
    }

    /** Fills a buffer of `n` bytes one by one. */
    method FillUp(n: nat) returns (bytes: Option<seq<char>>)
      requires Valid()
      modifies this
      ensures Valid() && Did(bytes, ReadBytes(old(Ahead()), n))
    {
      var buf := [];
      for i := 0 to n
        invariant Valid() && cursor == old(cursor) + i && buf == data[old(cursor)..cursor]
      {
        var c := ReadNextChar();
        if c.None? {
          return None;
        }
        buf := buf + [c.value];
      }
      assert old(Ahead())[..n] == data[old(cursor)..cursor];
      bytes := Some(buf);
    }

    method ReadSizeT() returns (v: Option<nat>)
      requires Valid()
      modifies this
      ensures Valid() && Did(v, ReadSize(old(Ahead())))
    {
      var bytes := FillUp(8);
      v := if bytes.None? then None else Some(Number(bytes.value));
    }

    method ReadInteger() returns (v: Option<int>)
      requires Valid()
      modifies this
      ensures Valid() && Did(v, ReadInt(old(Ahead())))
    {
      var bytes := FillUp(4);
      if bytes.None? {
        return None;
      }
      var n := Number(bytes.value);
      v := Some(if n >= INT_LIMIT then n - 2 * INT_LIMIT else n);
    }

    method ReadBoolean() returns (b: Option<bool>)
      requires Valid()
      modifies this
      ensures Valid() && Did(b, ReadBool(old(Ahead())))
    {
      var c := ReadNextChar();
      b := if c.None? then None else Some(c.value != 0 as char);
    }

    method ReadText() returns (t: Option<string>)
      requires Valid()
      modifies this
      ensures Valid() && Did(t, ReadString(old(Ahead())))
    {
      var n := ReadSizeT();
      if n.None? {
        return None;
      }
      var chars := FillUp(n.value);
      if chars.None? || n.value == 0 || chars.value[n.value - 1] != '\0' {
        return None;
      }
      t := Some(chars.value[..n.value - 1]);
    }

    method ReadOneCell(typ: char) returns (c: Option<Cell>)
      requires Valid()
      modifies this
      ensures Valid() && Did(c, ReadCell(old(Ahead()), typ))
    {
      c := None;
      if typ == 'B' {
        var b := ReadBoolean();
        if b.Some? { c := Some(Bool(b.value)); }
      } else if typ == 'I' {
        var i := ReadInteger();
        if i.Some? { c := Some(Int(i.value)); }
      } else if typ == 'F' {
        var bits := FillUp(4);
        if bits.Some? { c := Some(Float(bits.value)); }
      } else if typ == 'S' {
        var t := ReadText();
        if t.Some? { c := Some(Str(t.value)); }
      }
    }

    /** What has been read so far, put before what the rest of the input yields. */
    static ghost function Before<T>(read: seq<T>, later: Read<seq<T>>): Read<seq<T>> {
      match later
      case Fail => Fail
      case Got(v, rest) => Got(read + v, rest)
    }

    static lemma BeforeNothing<T>(later: Read<seq<T>>)
      ensures Before([], later) == later
    {
      if later.Got? {
        assert [] + later.value == later.value;
      }
    }

    method ReadMissing(n: nat) returns (missing: Option<seq<bool>>)
      requires Valid()
      modifies this
      ensures Valid() && Did(missing, ReadFlags(old(Ahead()), n))
    {
      var flags: seq<bool> := [];
      BeforeNothing(ReadFlags(Ahead(), n));
      for i := 0 to n
        invariant Valid()
        invariant Before(flags, ReadFlags(Ahead(), n - i)) == ReadFlags(old(Ahead()), n)
      {
        ghost var later := ReadFlags(Ahead(), n - i);
        var b := ReadBoolean();
        if b.None? {
          return None;
        }
        assert later == Before([b.value], ReadFlags(Ahead(), n - i - 1));
        assert forall v: seq<bool> :: flags + ([b.value] + v) == flags + [b.value] + v;
        flags := flags + [b.value];
      }
      assert flags + [] == flags;
      missing := Some(flags);
    }

    method ReadPresent(typ: char, missing: seq<bool>) returns (cells: Option<seq<Cell>>)
      requires Valid()
      modifies this
      ensures Valid() && Did(cells, ReadCells(old(Ahead()), typ, missing))
    {
      var got: seq<Cell> := [];
      BeforeNothing(ReadCells(Ahead(), typ, missing));
      assert missing[0..] == missing;
      for i := 0 to |missing|
        invariant Valid()
        invariant Before(got, ReadCells(Ahead(), typ, missing[i..])) == ReadCells(old(Ahead()), typ, missing)
      {
        ghost var later := ReadCells(Ahead(), typ, missing[i..]);
        var cell := Missing;
        if !missing[i] {
          var c := ReadOneCell(typ);
          if c.None? {
            return None;
          }
          cell := c.value;
        }
        assert missing[i..][1..] == missing[i + 1..];
        assert later == Before([cell], ReadCells(Ahead(), typ, missing[i + 1..]));
        assert forall v: seq<Cell> :: got + ([cell] + v) == got + [cell] + v;
        got := got + [cell];
      }
      assert got + [] == got;
      cells := Some(got);
    }

    method ReadWholeColumn() returns (c: Option<Column>)
      requires Valid()
      modifies this
      ensures Valid() && Did(c, ReadColumn(old(Ahead())))
    {
      var typ := ReadNextChar();
      if typ.None? || typ.value !in "BIFS" {
        return None;
      }
      var n := ReadSizeT();
      if n.None? {
        return None;
      }
      var missing := ReadMissing(n.value);
      if missing.None? {
        return None;
      }
      var cells := ReadPresent(typ.value, missing.value);
      c := if cells.None? then None else Some(Column(typ.value, cells.value));
    }
  
    method ReadWholeKey() returns (k: Option<Key>)
      requires Valid()
      modifies this
      ensures Valid() && Did(k, ReadKey(old(Ahead())))
    {
      var name := ReadText();
      if name.None? {
        return None;
      }
      var node := ReadSizeT();
      k := if node.None? then None else Some(Key(name.value, node.value));
    }

    method ReadKeyAndValue() returns (p: Option<(Key, Blob)>)
      requires Valid()
      modifies this
      ensures Valid() && Did(p, ReadPair(old(Ahead())))
    {
      var k := ReadWholeKey();
      if k.None? {
        return None;
      }
      var n := ReadSizeT();
      if n.None? {
        return None;
      }
      var v := FillUp(n.value);
      p := if v.None? then None else Some((k.value, v.value));
    }

    method ReadMessageHeader() returns (h: Option<(nat, nat, nat, nat)>)
      requires Valid()
      modifies this
      ensures Valid() && Did(h, ReadHeader(old(Ahead())))
    {
      var kind := ReadSizeT();
      if kind.None? {
        return None;
      }
      var sender := ReadSizeT();
      if sender.None? {
        return None;
      }
      var target := ReadSizeT();
      if target.None? {
        return None;
      }
      var id := ReadSizeT();
      h := if id.None? then None else Some((kind.value, sender.value, target.value, id.value));
    }

    method ReadDirectoryBody(a: nat, b: nat, c: nat) returns (m: Option<Message>)
      requires Valid()
      modifies this
      ensures Valid() && Did(m, ReadDirectory(old(Ahead()), a, b, c))
    {
      var clients := ReadSizeT();
      if clients.None? {
        return None;
      }
      var addresses := ReadWholeColumn();
      if addresses.None? {
        return None;
      }
      var ports := ReadWholeColumn();
      if ports.None? || addresses.value.typ != 'S' || ports.value.typ != 'I' {
        return None;
      }
      m := Some(Directory(a, b, c, clients.value, addresses.value, ports.value));
    }

    method ReadRegisterBody(a: nat, b: nat, c: nat) returns (m: Option<Message>)
      requires Valid()
      modifies this
      ensures Valid() && Did(m, ReadRegister(old(Ahead()), a, b, c))
    {
      var port := ReadSizeT();
      if port.None? {
        return None;
      }
      var ip := ReadText();
      m := if ip.None? then None else Some(Register(a, b, c, ip.value, port.value));
    }

    method ReadBody(kind: nat, a: nat, b: nat, c: nat) returns (m: Option<Message>)
      requires Valid()
      modifies this
      ensures Valid() && Did(m, ReadPayload(old(Ahead()), kind, a, b, c))
    {
      m := None;
      if kind == 0 {
        var text := ReadText();
        if text.Some? { m := Some(Status(a, b, c, text.value)); }
      } else if kind == 1 {
        m := ReadRegisterBody(a, b, c);
      } else if kind == 2 {
        m := ReadDirectoryBody(a, b, c);
      } else if kind == 3 {
        m := Some(Kill(a, b, c));
      } else if kind == 4 {
        var key := ReadWholeKey();
        if key.Some? { m := Some(Get(a, b, c, key.value)); }
      } else if kind == 5 {
        var p := ReadKeyAndValue();
        if p.Some? { m := Some(Put(a, b, c, p.value.0, p.value.1)); }
      } else if kind == 6 {
        var p := ReadKeyAndValue();
        if p.Some? { m := Some(Reply(a, b, c, p.value.0, p.value.1)); }
      }
    }

    /** Reads a message of whatever kind its header announces. */
    method ReadAnyMessage() returns (m: Option<Message>)
      requires Valid()
      modifies this
      ensures Valid() && Did(m, ReadMessage(old(Ahead())))
    {
      var h := ReadMessageHeader();
      if h.None? {
        return None;
      }
      m := ReadBody(h.value.0, h.value.1, h.value.2, h.value.3);
    }
  }

  /** A message written before any other bytes is read back, and the cursor stops right after it. */
  method MessageThroughBytes(m: Message, after: seq<char>) returns (m': Option<Message>, end: nat)
    requires MessageFits(m)
    ensures m' == Some(m) && end == |EncMessage(m)|
  {
    hide EncMessage, ReadMessage, MessageFits;
    var ser := new Serializer();
    ser.WriteMessage(m);
    ser.WriteChars(after);
    assert ser.data == EncMessage(m) + after;
    MessageRead(m, after);
    var dser := new Deserializer(ser.data);
    m' := dser.ReadAnyMessage();
    assert dser.Ahead() == after;
    end := dser.cursor;
  }
}
