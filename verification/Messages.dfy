/**
 Keys, values and the messages nodes exchange. A `char` stands for one byte,
 as in the source, so a blob of serialized data is a `seq<char>`.
 */
module Messages {
  import opened Params

  /** The node part of a key says on which node the value lives. */
  datatype Key = Key(name: string, node: nat)

  type Blob = seq<char>

  /** One field of a frame; a float is kept as its four bytes. */
  datatype Cell = Missing | Bool(b: bool) | Int(i: int) | Float(bits: seq<char>) | Str(s: string)

  /** A column of type 'B', 'I', 'F' or 'S'. */
  datatype Column = Column(typ: char, cells: seq<Cell>)

  /** The column types and the number of rows of a frame. */
  datatype Schema = Schema(types: seq<char>, height: nat)

  datatype Message =
    | Status(sender: nat, target: nat, id: nat, text: string)
    | Register(sender: nat, target: nat, id: nat, ip: string, port: nat)  // the address as dotted text
    | Directory(sender: nat, target: nat, id: nat, clients: nat, addresses: Column, ports: Column)
    | Kill(sender: nat, target: nat, id: nat)
    | Get(sender: nat, target: nat, id: nat, key: Key)
    | Put(sender: nat, target: nat, id: nat, key: Key, value: Blob)
    | Reply(sender: nat, target: nat, id: nat, key: Key, value: Blob)
}
