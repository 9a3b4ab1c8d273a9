/**
 Distributed frames: publishing rows chunk by chunk, reading them back on any
 node, visiting only the chunks that are homed locally, and the per-column
 cache behind single-value reads.
 */
module Frames {
  import opened Params
  import opened Arith
  import opened Messages
  import opened Text
  import opened Wire
  import opened Serialization
  import opened Layout

  /**
   The stores of all nodes. `log` lists the puts in the order they are made;
   what a get returns is what the key-value protocol delivers.
   */
  class Stores {
    var entries: map<Key, Blob>
    ghost var log: seq<(Key, Blob)>

    constructor ()
      ensures entries == map[] && log == []
    {
      entries, log := map[], [];
    }

    method Put(k: Key, v: Blob)
      modifies this
      ensures entries == old(entries)[k := v] && log == old(log) + [(k, v)]
    {
      entries := entries[k := v];
      log := log + [(k, v)];
    }

    method GetValue(k: Key) returns (v: Blob)
      requires k in entries
      ensures v == entries[k]
    {
      v := entries[k];
    }
  }

  /** A source of rows. */
  class RowWriter {
    const rows: seq<Row>
    var pos: nat

    constructor (rows: seq<Row>)
      ensures this.rows == rows && pos == 0
    {
      this.rows, pos := rows, 0;
    }

    predicate Done()
      reads this
    {
      pos >= |rows|
    }

    lemma NotDone()
      ensures !Done() <==> pos < |rows|
    {
    }

    method Accept() returns (r: Row)
      requires !Done()
      modifies this
      ensures r == rows[old(pos)] && pos == old(pos) + 1
    {
      r := rows[pos];
      pos := pos + 1;
    }
  }

  function EmptyColumns(types: seq<char>): seq<Column> {
    seq(|types|, j requires 0 <= j < |types| => Column(types[j], []))
  }

  function ColumnsOf(types: seq<char>, rows: seq<Row>): seq<Column>
    requires Rectangular(types, rows)
  {
    seq(|types|, j requires 0 <= j < |types| => ColumnOf(types, rows, j))
  }

  lemma NoRowsNoCells(types: seq<char>)
    ensures ColumnsOf(types, []) == EmptyColumns(types)
  {
    forall j | 0 <= j < |types| ensures ColumnOf(types, [], j) == Column(types[j], []) {
      assert ColumnOf(types, [], j).cells == [];
    }
  }

  /** Stores one chunk of every column and starts each column afresh. */
  method DistributeColumns(cols: seq<Column>, chunk: nat, k: Key, kv: Stores,
                           ghost types: seq<char>, ghost rows: seq<Row>) returns (fresh_: seq<Column>)
    requires FrameFits(types, rows) && Rectangular(types, ChunkRows(rows, chunk))
    requires cols == ColumnsOf(types, ChunkRows(rows, chunk))
    modifies kv
    ensures kv.log == old(kv.log) + ColumnPuts(k, types, rows, chunk, |types|)
    ensures kv.entries == Stored(old(kv.entries), ColumnPuts(k, types, rows, chunk, |types|))
    ensures fresh_ == EmptyColumns(types)
  {
    hide ChunkRows, ChunkName, FrameFits, ColumnFits, EncColumn;
    fresh_ := cols;
    for col := 0 to |cols|
      invariant |fresh_| == |cols|
      invariant fresh_[col..] == cols[col..]
      invariant forall j | 0 <= j < col :: fresh_[j] == Column(types[j], [])
      invariant kv.log == old(kv.log) + ColumnPuts(k, types, rows, chunk, col)
      invariant kv.entries == Stored(old(kv.entries), ColumnPuts(k, types, rows, chunk, col))
    {
      var name := BuildChunkName(k.name, col, chunk);
      var ser := new Serializer();
      ChunkFits(types, rows, col, chunk);
      assert fresh_[col] == fresh_[col..][0] == cols[col];
      ser.WriteColumn(fresh_[col]);
      ghost var puts := ColumnPuts(k, types, rows, chunk, col);
      assert ser.data == ChunkBlob(types, rows, col, chunk);
      kv.Put(Key(name, (k.node + chunk) % NUM_NODES), ser.data);
      assert ColumnPuts(k, types, rows, chunk, col + 1)[..|puts|] == puts;
      fresh_ := fresh_[col := Column(fresh_[col].typ, [])];
    }
  }

  lemma {:induction false} StoredConcat(entries: map<Key, Blob>, a: seq<(Key, Blob)>, b: seq<(Key, Blob)>)
    ensures Stored(entries, a + b) == Stored(Stored(entries, a), b)
  {
    if b == [] {
      assert a + b == a;
    } else {
      assert (a + b)[..|a + b| - 1] == a + b[..|b| - 1];
      StoredConcat(entries, a, b[..|b| - 1]);
    }
  }

  /** Stores the schema under the frame's key, as the last put of a publication. */
  method PutSchema(k: Key, kv: Stores, types: seq<char>, height: nat)
    modifies kv
    ensures kv.log == old(kv.log) + [SchemaPut(k, types, height)]
    ensures kv.entries == Stored(old(kv.entries), [SchemaPut(k, types, height)])
  {
    var ser := new Serializer();
    ser.WriteSchema(Schema(types, height));
    ghost var p := SchemaPut(k, types, height);
    assert ser.data == p.1;
    kv.Put(k, ser.data);
    assert [p][..0] == [];
  }

  class DataFrame {
    const types: seq<char>
    const me: nat
    var key: Key
    var height: nat
    var cols: seq<Column>
    var chunkIndex: seq<nat>
    var mustLoad: bool

    constructor (types: seq<char>, me: nat)
      ensures this.types == types && this.me == me
      ensures cols == EmptyColumns(types) && chunkIndex == seq(|types|, _ => 0) && !mustLoad
    {
      this.types, this.me := types, me;
      key, height := Key([], 0), 0;
      cols := EmptyColumns(types);
      chunkIndex := seq(|types|, _ => 0);
      mustLoad := false;
    }

    /** Opens a frame whose schema was fetched from the stores. */
    constructor FromStore(k: Key, kv: Stores, me: nat, ghost rows: seq<Row>, ghost storedTypes: seq<char>)
      requires FrameFits(storedTypes, rows) && Holds(kv.entries, k, storedTypes, rows)
      ensures types == storedTypes && key == k && height == |rows| && this.me == me
      ensures cols == EmptyColumns(types) && chunkIndex == seq(|types|, _ => 0) && mustLoad
    {
      var blob := kv.entries[k];
      SchemaRead(Schema(storedTypes, |rows|), []);
      assert blob + [] == blob;
      var schema := ReadSchema(blob).value;
      this.types, this.me := schema.types, me;
      key, height := k, schema.height;
      cols := EmptyColumns(schema.types);
      chunkIndex := seq(|schema.types|, _ => 0);
      mustLoad := true;
    }

    /** Adds a row at the end of the columns held in memory. */
    method AddRow(r: Row, ghost rows: seq<Row>)
      requires RowFits(types, r) && Rectangular(types, rows) && cols == ColumnsOf(types, rows)
      modifies this`cols
      ensures cols == ColumnsOf(types, rows + [r])
    {
      hide CellFits;
      for i := 0 to |cols|
        invariant |cols| == |types|
        invariant forall j | 0 <= j < i :: cols[j] == ColumnOf(types, rows + [r], j)
        invariant forall j | i <= j < |types| :: cols[j] == ColumnOf(types, rows, j)
      {
        cols := cols[i := Column(cols[i].typ, cols[i].cells + [r[i]])];
      }
    }

    method SetDistributedSchema(k: Key, height: nat)
      modifies this`key, this`height
      ensures key == k && this.height == height
    {
      key := k;
      this.height := height;
    }

    /** Takes rows from the writer until the chunk is full or the writer is done. */
    method FillChunk(w: RowWriter, height: nat, ghost chunk: nat) returns (height': nat)
      requires FrameFits(types, w.rows) && height == w.pos == Rows(chunk) <= |w.rows|
      requires cols == EmptyColumns(types)
      modifies this`cols, w
      ensures w.pos == height' == Min(Rows(chunk + 1), |w.rows|)
      ensures Rectangular(types, ChunkRows(w.rows, chunk))
      ensures cols == ColumnsOf(types, ChunkRows(w.rows, chunk))
    {
      hide Rows, CellFits;
      RowsMonotone(chunk, chunk + 1);
      RowsAdd(chunk, 1);
      assert Rows(1) == CHUNK_SIZE by {
        RowsIs(1);
      }
      height' := height;
      ghost var start, rows := w.pos, w.rows;
      NoRowsNoCells(types);
      var i := 0;
      while i < CHUNK_SIZE && !w.Done()
        invariant i <= CHUNK_SIZE && w.pos == height' == start + i <= |rows|
        invariant Rectangular(types, rows[start..w.pos]) && cols == ColumnsOf(types, rows[start..w.pos])
      {
        assert rows[start..w.pos + 1] == rows[start..w.pos] + [rows[w.pos]];
        ghost var before := rows[start..w.pos];
        var row := w.Accept();
        AddRow(row, before);
        height' := height' + 1;
        i := i + 1;
      }
    }

    /** Publishes the rows of a writer: full chunks as they fill up, then a last partial one. */
    static method FromVisitor(k: Key, kv: Stores, types: seq<char>, w: RowWriter, me: nat) returns (df: DataFrame)
      requires FrameFits(types, w.rows) && w.pos == 0
      modifies kv, w
      ensures kv.log == old(kv.log) + Publication(k, types, w.rows, NumChunks(|w.rows|))
      ensures kv.entries == Stored(old(kv.entries), Publication(k, types, w.rows, NumChunks(|w.rows|)))
      ensures Holds(kv.entries, k, types, w.rows)
      ensures fresh(df) && df.types == types && df.me == me && df.key == k && df.height == |w.rows|
      ensures df.cols == EmptyColumns(types) && df.chunkIndex == seq(|types|, _ => 0) && df.mustLoad
    {
      hide *;
      df := new DataFrame(types, me);
      var height, chunk := 0, 0;
      ghost var rows := w.rows;
      PutsStart(k, types, rows, kv.entries);
      assert kv.log + [] == kv.log;
      while !w.Done()
        invariant w.pos == height == Min(Rows(chunk), |rows|)
        invariant chunk > 0 ==> Rows(chunk - 1) < |rows|
        invariant df.cols == EmptyColumns(types) && df.chunkIndex == seq(|types|, _ => 0)
        invariant kv.log == old(kv.log) + ChunkPuts(k, types, rows, chunk)
        invariant kv.entries == Stored(old(kv.entries), ChunkPuts(k, types, rows, chunk))
        decreases |rows| - w.pos
      {
        ChunkBegins(|rows|, chunk);
        w.NotDone();
        height := df.FillChunk(w, height, chunk);
        PutsStep(k, types, rows, old(kv.entries), chunk);
        df.cols := DistributeColumns(df.cols, chunk, k, kv, types, rows);
        assert kv.log == old(kv.log) + (ChunkPuts(k, types, rows, chunk) + ColumnPuts(k, types, rows, chunk, |types|));
        chunk := chunk + 1;
      }
      w.NotDone();
      AllChunks(|rows|, chunk);
      PutsEnd(k, types, rows, old(kv.entries), chunk);
      PutSchema(k, kv, types, height);
      df.SetDistributedSchema(k, height);
      df.mustLoad := true;
    }

    /** Publishes an array of values as a one-column frame; the first chunk stays loaded. */
    static method FromArray(k: Key, kv: Stores, typ: char, vals: seq<Cell>, me: nat) returns (df: DataFrame)
      requires FrameFits([typ], OneColumn(vals))
      modifies kv
      ensures kv.log == old(kv.log) + Publication(k, [typ], OneColumn(vals), |vals| / CHUNK_SIZE + 1)
      ensures kv.entries == Stored(old(kv.entries), Publication(k, [typ], OneColumn(vals), |vals| / CHUNK_SIZE + 1))
      ensures fresh(df) && df.types == [typ] && df.me == me && df.key == k
      ensures df.Opened(kv, OneColumn(vals)) && !df.mustLoad && df.Coherent(OneColumn(vals))
    {
      hide *;
      ghost var rows, types := OneColumn(vals), [typ];
      var numChunks := |vals| / CHUNK_SIZE + 1;
      var height := 0;
      var first := Column(typ, []);
      PutsStart(k, types, rows, kv.entries);
      assert kv.log + [] == kv.log;
      for c := 0 to numChunks
        invariant height == Min(Rows(c), |vals|)
        invariant c > 0 ==> first == ArrayChunk(typ, vals, 0)
        invariant kv.log == old(kv.log) + ChunkPuts(k, types, rows, c)
        invariant kv.entries == Stored(old(kv.entries), ChunkPuts(k, types, rows, c))
      {
        var fc := FillArrayChunk(typ, vals, c);
        height := height + |fc.cells|;
        if c == 0 {
          first := fc;
        }
        ArrayChunkIs(typ, vals, c);
        PutsStep(k, types, rows, old(kv.entries), c);
        var _ := DistributeColumns([fc], c, k, kv, types, rows);
        assert kv.log == old(kv.log) + (ChunkPuts(k, types, rows, c) + ColumnPuts(k, types, rows, c, 1));
      }
      df := new DataFrame([typ], me);
      df.cols := [first];
      df.SetDistributedSchema(k, height);
      NumChunksCovers(|rows|, 0);
      PutsEnd(k, types, rows, old(kv.entries), numChunks);
      PutSchema(k, kv, [typ], height);
      FirstChunkSynced(df, kv, vals);
    }

    static lemma FirstChunkSynced(df: DataFrame, kv: Stores, vals: seq<Cell>)
      requires FrameFits(df.types, OneColumn(vals)) && |df.types| == 1 && df.chunkIndex == [0]
      requires Holds(kv.entries, df.key, df.types, OneColumn(vals)) && df.height == |vals|
      requires df.cols == [ArrayChunk(df.types[0], vals, 0)]
      ensures df.Opened(kv, OneColumn(vals)) && df.Coherent(OneColumn(vals))
    {
      hide Rows, FrameFits, Holds, ChunkRows, ArrayChunk;
      ArrayChunkIs(df.types[0], vals, 0);
      assert df.types == [df.types[0]];
      assert ColumnsOf(df.types, ChunkRows(OneColumn(vals), 0))[0] == df.cols[0];
    }

    /** Publishes a single value; its chunk lives on the frame's own node. */
    static method FromScalar(k: Key, kv: Stores, typ: char, v: Cell, me: nat) returns (df: DataFrame)
      requires FrameFits([typ], OneColumn([v])) && k.node < NUM_NODES
      modifies kv
      ensures kv.log == old(kv.log) + Publication(k, [typ], OneColumn([v]), 1)
      ensures kv.entries == Stored(old(kv.entries), Publication(k, [typ], OneColumn([v]), 1))
      ensures fresh(df) && df.types == [typ] && df.me == me && df.key == k
      ensures df.Opened(kv, OneColumn([v])) && !df.mustLoad && df.Coherent(OneColumn([v]))
    {
      hide *;
      ghost var rows, types := OneColumn([v]), [typ];
      var fc := Column(typ, [v]);
      df := new DataFrame([typ], me);
      df.cols := [fc];
      df.SetDistributedSchema(k, 1);
      ScalarPuts(k, typ, v, kv.entries);
      var name := BuildChunkName(k.name, 0, 0);
      var ser := new Serializer();
      ser.WriteColumn(fc);
      assert ser.data == EncColumn(fc);
      kv.Put(Key(name, k.node), ser.data);
      PutSchema(k, kv, [typ], 1);
      FirstChunkSynced(df, kv, [v]);
    }

    /** Fetches chunk `c` of column `j` from the node it is homed on. */
    method LoadColumn(j: nat, c: nat, kv: Stores, ghost rows: seq<Row>)
      requires Opened(kv, rows) && j < |types| && c < NumChunks(|rows|)
      modifies this`cols, this`chunkIndex
      ensures Opened(kv, rows) && Synced(j, rows) && chunkIndex[j] == c
      ensures cols == old(cols)[j := cols[j]] && chunkIndex == old(chunkIndex)[j := c]
    {
      hide Rows, ChunkRows, ColumnFits, FrameFits, EncColumn, ReadColumn, ChunkName, NumChunks;
      var name := BuildChunkName(key.name, j, c);
      var target := (c + key.node) % NUM_NODES;
      assert HoldsChunk(kv.entries, key, types, rows, j, c);
      var blob := kv.GetValue(Key(name, target));
      ChunkFits(types, rows, j, c);
      RectangularChunk(types, rows, c);
      ghost var column := ColumnOf(types, ChunkRows(rows, c), j);
      ColumnRead(column, []);
      assert blob + [] == blob;
      var dser := new Deserializer(blob);
      var read := dser.ReadWholeColumn();
      cols := cols[j := read.value];
      chunkIndex := chunkIndex[j := c];
    }

    /** Loads chunk `c` of every column. */
    method Load(c: nat, kv: Stores, ghost rows: seq<Row>)
      requires Opened(kv, rows) && c < NumChunks(|rows|)
      modifies this`cols, this`chunkIndex
      ensures Opened(kv, rows)
      ensures forall j | 0 <= j < |types| :: Synced(j, rows) && chunkIndex[j] == c
    {
      hide FrameFits, Holds, NumChunks, ChunkRows, ColumnOf;
      for j := 0 to |cols|
        invariant Opened(kv, rows)
        invariant forall i | 0 <= i < j :: Synced(i, rows) && chunkIndex[i] == c
      {
        LoadColumn(j, c, kv, rows);
      }
    }

    /** The row at position `i` of the loaded chunk. */
    method FillRow(i: nat, ghost part: seq<Row>) returns (r: Row)
      requires Rectangular(types, part) && cols == ColumnsOf(types, part) && i < |part|
      ensures r == part[i]
    {
      r := [];
      for j := 0 to |cols|
        invariant r == part[i][..j]
      {
        assert cols[j] == ColumnOf(types, part, j);
        r := r + [cols[j].cells[i]];
      }
    }

    predicate IsLocallyStored(chunk: nat)
      reads this
    {
      (chunk + key.node) % NUM_NODES == me
    }

    /** Loads a chunk and visits its rows, each with its index in the whole frame. */
    method VisitChunk(c: nat, kv: Stores, ghost rows: seq<Row>) returns (visits: seq<(nat, Row)>)
      requires Opened(kv, rows) && c < NumChunks(|rows|)
      modifies this`cols, this`chunkIndex
      ensures Opened(kv, rows)
      ensures InRange(rows, ChunkIndices(|rows|, c)) && visits == Visits(rows, ChunkIndices(|rows|, c))
    {
      hide Rows, ChunkOf, PosOf, FrameFits, Holds, NumChunks;
      Load(c, kv, rows);
      RowsIs(c);
      RowsIs(c + 1);
      RowsMonotone(c, c + 1);
      RowsAdd(c, 1);
      RowsIs(1);
      NumChunksCovers(|rows|, c);
      RectangularChunk(types, rows, c);
      ghost var part := ChunkRows(rows, c);
      assert cols == ColumnsOf(types, part) by {
        assert forall j | 0 <= j < |types| :: Synced(j, rows) && cols[j] == ColumnOf(types, part, j);
      }
      var limit := Min((c + 1) * CHUNK_SIZE, height);
      visits := [];
      for idx := c * CHUNK_SIZE to limit
        invariant Opened(kv, rows) && cols == ColumnsOf(types, part)
        invariant visits == Visits(rows, ChunkIndices(|rows|, c)[..idx - Rows(c)])
      {
        PartsSlot(c, idx - Rows(c));
        ChunkOfIs(idx);
        var row := FillRow(idx % CHUNK_SIZE, part);
        ghost var all, n := ChunkIndices(|rows|, c), idx - Rows(c);
        assert all[n] == idx && part[n] == rows[idx];
        assert all[..n + 1] == all[..n] + [idx];
        visits := visits + [(idx, row)];
      }
      assert ChunkIndices(|rows|, c)[..limit - Rows(c)] == ChunkIndices(|rows|, c);
    }

    /** Visits every row, wherever its chunk is stored. */
    method DistributedMap(kv: Stores, ghost rows: seq<Row>) returns (visits: seq<(nat, Row)>)
      requires Opened(kv, rows)
      modifies this`cols, this`chunkIndex
      ensures Opened(kv, rows)
      ensures visits == Visits(rows, UpTo(|rows|))
    {
      hide Rows, FrameFits, Holds, NumChunks, ChunkIndices;
      var maxChunks := NumChunks(height);
      visits := [];
      RowsIs(0);
      for c := 0 to maxChunks
        invariant Opened(kv, rows)
        invariant visits == Visits(rows, UpTo(Min(Rows(c), |rows|)))
      {
        var more := VisitChunk(c, kv, rows);
        UpToMore(|rows|, c);
        VisitsConcat(rows, UpTo(Min(Rows(c), |rows|)), ChunkIndices(|rows|, c));
        visits := visits + more;
      }
      NumChunksCovers(|rows|, maxChunks);
    }

    /** Visits the rows of the chunks homed on this node. */
    method LocalMap(kv: Stores, ghost rows: seq<Row>) returns (visits: seq<(nat, Row)>)
      requires Opened(kv, rows)
      modifies this`cols, this`chunkIndex
      ensures Opened(kv, rows)
      ensures InRange(rows, LocalIndices(key, |rows|, me, NumChunks(|rows|)))
      ensures visits == Visits(rows, LocalIndices(key, |rows|, me, NumChunks(|rows|)))
    {
      hide Rows, FrameFits, Holds, NumChunks, ChunkIndices;
      var maxChunks := NumChunks(height);
      visits := [];
      for c := 0 to maxChunks
        invariant Opened(kv, rows)
        invariant InRange(rows, LocalIndices(key, |rows|, me, c))
        invariant visits == Visits(rows, LocalIndices(key, |rows|, me, c))
      {
        LocalInRange(key, rows, me, c + 1);
        if IsLocallyStored(c) {
          var more := VisitChunk(c, kv, rows);
          VisitsConcat(rows, LocalIndices(key, |rows|, me, c), ChunkIndices(|rows|, c));
          visits := visits + more;
        } else {
          assert LocalIndices(key, |rows|, me, c) + [] == LocalIndices(key, |rows|, me, c);
        }
      }
    }

    /** Makes sure the chunk of a row is loaded, as far as the load flag and the chunk index tell. */
    method LoadIfNecessary(col: nat, row: nat, kv: Stores, ghost rows: seq<Row>)
      requires Opened(kv, rows) && col < |types| && row < |rows|
      modifies this`cols, this`chunkIndex, this`mustLoad
      ensures Opened(kv, rows) && !mustLoad && chunkIndex == old(chunkIndex)[col := row / CHUNK_SIZE]
      ensures cols == old(cols)[col := cols[col]]
      ensures if old(mustLoad) || old(chunkIndex[col]) != row / CHUNK_SIZE || old(cols[col].cells) != []
              then Synced(col, rows) else cols[col].cells == []
      ensures old(Coherent(rows)) && |types| == 1 ==> Coherent(rows)
    {
      hide Rows, ChunkOf, FrameFits, Holds, NumChunks, ChunkRows;
      var desired := row / CHUNK_SIZE;
      if !mustLoad && chunkIndex[col] == desired {
        return;
      }
      mustLoad := false;
      ChunkOfIs(row);
      SlotParts(row);
      NumChunksCovers(|rows|, desired);
      LoadColumn(col, desired, kv, rows);
    }

    /**
     Reads one value. `None` is a read past the end of the column in memory.
     With the single load flag shared by all columns, the value is right
     exactly if the flag was set, another chunk was named, or the column in
     memory was not empty; for a coherent one-column frame that is always so.
     */
    method GetCell(col: nat, row: nat, kv: Stores, ghost rows: seq<Row>) returns (v: Option<Cell>)
      requires Opened(kv, rows) && col < |types| && row < |rows|
      modifies this`cols, this`chunkIndex, this`mustLoad
      ensures Opened(kv, rows) && !mustLoad && chunkIndex == old(chunkIndex)[col := row / CHUNK_SIZE]
      ensures cols == old(cols)[col := cols[col]]
      ensures v == Some(rows[row][col]) <==>
              (old(mustLoad) || old(chunkIndex[col]) != row / CHUNK_SIZE || old(cols[col].cells) != [])
      ensures v == Some(rows[row][col]) || v == None
      ensures old(Coherent(rows)) && |types| == 1 ==> Coherent(rows) && v == Some(rows[row][col])
    {
      hide Rows, Holds, NumChunks, FrameFits, ColumnOf, ChunkRows;
      LoadIfNecessary(col, row, kv, rows);
      assert old(Coherent(rows)) && |types| == 1 ==> Synced(col, rows);
      var pos := row - chunkIndex[col] * CHUNK_SIZE;
      CellInChunk(types, rows, col, row);
      v := if pos < |cols[col].cells| then Some(cols[col].cells[pos]) else None;
    }

    /** The frame is in the stores, and what is in memory comes from it. */
    ghost predicate Opened(kv: Stores, rows: seq<Row>)
      reads this, kv
    {
      InMemory(rows) && Holds(kv.entries, key, types, rows)
    }

    /** Each column in memory is a chunk of the frame or was never loaded. */
    ghost predicate InMemory(rows: seq<Row>)
      reads this
    {
      && FrameFits(types, rows)
      && height == |rows| && |cols| == |chunkIndex| == |types|
      && forall j | 0 <= j < |types| :: Synced(j, rows) || (cols[j].cells == [] && chunkIndex[j] == 0)
    }

    /** Column `j` is the chunk its index names. */
    ghost predicate Synced(j: nat, rows: seq<Row>)
      requires FrameFits(types, rows) && j < |types|
      reads this
    {
      && j < |cols| && j < |chunkIndex|
      && Rectangular(types, ChunkRows(rows, chunkIndex[j]))
      && cols[j] == ColumnOf(types, ChunkRows(rows, chunkIndex[j]), j)
    }

    /** Unless the next query must load, every column is the chunk its index names. */
    ghost predicate Coherent(rows: seq<Row>)
      requires FrameFits(types, rows)
      reads this
    {
      mustLoad || forall j | 0 <= j < |types| :: Synced(j, rows)
    }
  }

  /** The values of chunk `c` of an array: a full chunk, or what is left over for the last. */
  method FillArrayChunk(typ: char, vals: seq<Cell>, c: nat) returns (fc: Column)
    requires c <= |vals| / CHUNK_SIZE
    ensures fc == ArrayChunk(typ, vals, c)
    ensures Min(Rows(c), |vals|) + |fc.cells| == Min(Rows(c + 1), |vals|)
  {
    hide Rows, ChunkOf, PosOf;
    var rem, numChunks := |vals| % CHUNK_SIZE, |vals| / CHUNK_SIZE + 1;
    ChunkOfIs(|vals|);
    SlotParts(|vals|);
    RowsMonotone(c, c + 1);
    RowsAdd(c, 1);
    RowsIs(1);
    RowsIs(c);
    if c < numChunks - 1 {
      RowsMonotone(c, numChunks - 1);
    }
    var limit := if c == numChunks - 1 then rem else CHUNK_SIZE;
    fc := Column(typ, []);
    for i := 0 to limit
      invariant fc == Column(typ, vals[Rows(c)..Rows(c) + i])
    {
      fc := fc.(cells := fc.cells + [vals[c * CHUNK_SIZE + i]]);
    }
  }

  lemma ChunkBegins(n: nat, c: nat)
    ensures Min(Rows(c), n) < n ==> Min(Rows(c), n) == Rows(c) < Min(Rows(c + 1), n) <= n
  {
    hide Rows;
    RowsMonotone(c, c + 1);
  }

  /** The chunks written when the rows run out are exactly those that hold rows. */
  lemma AllChunks(n: nat, m: nat)
    requires n <= Min(Rows(m), n) && (m > 0 ==> Rows(m - 1) < n)
    ensures m == NumChunks(n) && Min(Rows(m), n) == n
  {
    hide Rows, NumChunks;
    NumChunksCovers(n, m);
    if m > 0 {
      NumChunksCovers(n, m - 1);
    }
  }

  lemma PutsStart(k: Key, types: seq<char>, rows: seq<Row>, entries: map<Key, Blob>)
    requires FrameFits(types, rows)
    ensures Min(Rows(0), |rows|) == 0
    ensures ChunkPuts(k, types, rows, 0) == [] && Stored(entries, []) == entries
  {
  }

  lemma PutsStep(k: Key, types: seq<char>, rows: seq<Row>, entries: map<Key, Blob>, c: nat)
    requires FrameFits(types, rows)
    ensures var puts, more := ChunkPuts(k, types, rows, c), ColumnPuts(k, types, rows, c, |types|);
            && ChunkPuts(k, types, rows, c + 1) == puts + more
            && Stored(entries, puts + more) == Stored(Stored(entries, puts), more)
  {
    hide Rows, FrameFits, ColumnPuts;
    StoredConcat(entries, ChunkPuts(k, types, rows, c), ColumnPuts(k, types, rows, c, |types|));
  }

  lemma PutsEnd(k: Key, types: seq<char>, rows: seq<Row>, entries: map<Key, Blob>, m: nat)
    requires FrameFits(types, rows) && NumChunks(|rows|) <= m
    ensures var puts, last := ChunkPuts(k, types, rows, m), [SchemaPut(k, types, |rows|)];
            && |rows| == Min(Rows(m), |rows|)
            && Publication(k, types, rows, m) == puts + last
            && Stored(entries, puts + last) == Stored(Stored(entries, puts), last)
            && Holds(Stored(Stored(entries, puts), last), k, types, rows)
  {
    hide Rows, FrameFits, ChunkPuts, Holds, SchemaPut, NumChunks;
    NumChunksCovers(|rows|, m);
    StoredConcat(entries, ChunkPuts(k, types, rows, m), [SchemaPut(k, types, |rows|)]);
    PublicationHolds(entries, k, types, rows, m);
  }

  /** Where a row lies in its chunk. */
  lemma CellInChunk(types: seq<char>, rows: seq<Row>, col: nat, row: nat)
    requires FrameFits(types, rows) && col < |types| && row < |rows|
    ensures var c := row / CHUNK_SIZE;
            var pos := row - c * CHUNK_SIZE;
            && 0 <= pos < |ChunkRows(rows, c)| && Rectangular(types, ChunkRows(rows, c))
            && ColumnOf(types, ChunkRows(rows, c), col).cells[pos] == rows[row][col]
            && |ColumnOf(types, ChunkRows(rows, c), col).cells| == |ChunkRows(rows, c)|
  {
    hide Rows, ChunkOf, PosOf, CellFits;
    var c := row / CHUNK_SIZE;
    ChunkOfIs(row);
    SlotParts(row);
    RowsIs(c);
    RowsMonotone(c, c + 1);
    RowsAdd(c, 1);
    RowsIs(1);
    RectangularChunk(types, rows, c);
    assert ChunkRows(rows, c)[row - c * CHUNK_SIZE] == rows[row];
  }

  lemma RectangularChunk(types: seq<char>, rows: seq<Row>, c: nat)
    requires FrameFits(types, rows)
    ensures Rectangular(types, ChunkRows(rows, c))
  {
    RowsMonotone(c, c + 1);
  }

  lemma ScalarPuts(k: Key, typ: char, v: Cell, entries: map<Key, Blob>)
    requires FrameFits([typ], OneColumn([v])) && k.node < NUM_NODES
    ensures ColumnFits(Column(typ, [v])) && ArrayChunk(typ, [v], 0) == Column(typ, [v])
    ensures var rows := OneColumn([v]);
            var first, last := (Key(ChunkName(k.name, 0, 0), k.node), EncColumn(Column(typ, [v]))), SchemaPut(k, [typ], 1);
            && Publication(k, [typ], rows, 1) == [first] + [last]
            && Stored(entries, Publication(k, [typ], rows, 1)) == Stored(entries[first.0 := first.1], [last])
            && Holds(Stored(entries[first.0 := first.1], [last]), k, [typ], rows)
  {
    hide ChunkName, EncColumn, SchemaPut, Holds, CellFits;
    var rows := OneColumn([v]);
    RowsIs(0);
    RowsIs(1);
    ArrayChunkIs(typ, [v], 0);
    ChunkFits([typ], rows, 0, 0);
    assert ColumnsOf([typ], ChunkRows(rows, 0))[0] == Column(typ, [v]);
    var first := (Key(ChunkName(k.name, 0, 0), k.node), EncColumn(Column(typ, [v])));
    var last := SchemaPut(k, [typ], 1);
    HomeOfFirst(k);
    assert ColumnPuts(k, [typ], rows, 0, 1) == [first];
    assert ChunkPuts(k, [typ], rows, 1) == [] + [first];
    NumChunksCovers(1, 1);
    PublicationHolds(entries, k, [typ], rows, 1);
    StoredConcat(entries, [first], [last]);
    assert [first][..0] == [];
  }

  lemma HomeOfFirst(k: Key)
    requires k.node < NUM_NODES
    ensures (k.node + 0) % NUM_NODES == k.node
  {
    DivModUnique(k.node, NUM_NODES, 0, k.node);
  }

  /** The rows at the given indices, as a map hands them to its visitor. */
  function Visits(rows: seq<Row>, indices: seq<nat>): seq<(nat, Row)>
    requires InRange(rows, indices)
  {
    seq(|indices|, i requires 0 <= i < |indices| => (indices[i], rows[indices[i]]))
  }

  predicate InRange(rows: seq<Row>, indices: seq<nat>) {
    forall i | 0 <= i < |indices| :: indices[i] < |rows|
  }

  function UpTo(n: nat): (s: seq<nat>)
    ensures |s| == n && forall i | 0 <= i < n :: s[i] == i
  {
    seq(n, i => i)
  }

  lemma VisitsConcat(rows: seq<Row>, a: seq<nat>, b: seq<nat>)
    requires InRange(rows, a) && InRange(rows, b)
    ensures InRange(rows, a + b) && Visits(rows, a + b) == Visits(rows, a) + Visits(rows, b)
  {
  }

  lemma UpToMore(n: nat, c: nat)
    ensures UpTo(Min(Rows(c + 1), n)) == UpTo(Min(Rows(c), n)) + ChunkIndices(n, c)
  {
    hide Rows;
    RowsMonotone(c, c + 1);
  }

  lemma LocalInRange(k: Key, rows: seq<Row>, me: nat, m: nat)
    ensures InRange(rows, LocalIndices(k, |rows|, me, m))
  {
    hide LocalIndices;
    forall i | 0 <= i < |LocalIndices(k, |rows|, me, m)| ensures LocalIndices(k, |rows|, me, m)[i] < |rows| {
      LocalIndicesAre(k, |rows|, me, m, LocalIndices(k, |rows|, me, m)[i]);
    }
  }

  function OneColumn(vals: seq<Cell>): (rows: seq<Row>)
    ensures |rows| == |vals|
  {
    seq(|vals|, i requires 0 <= i < |vals| => [vals[i]])
  }

  function ArrayChunk(typ: char, vals: seq<Cell>, c: nat): Column {
    RowsMonotone(c, c + 1);
    Column(typ, vals[Min(Rows(c), |vals|)..Min(Rows(c + 1), |vals|)])
  }

  lemma ArrayChunkIs(typ: char, vals: seq<Cell>, c: nat)
    ensures var part := ChunkRows(OneColumn(vals), c);
            Rectangular([typ], part) && ColumnsOf([typ], part) == [ArrayChunk(typ, vals, c)]
  {
    hide Rows;
    RowsMonotone(c, c + 1);
    var part := ChunkRows(OneColumn(vals), c);
    assert ColumnOf([typ], part, 0).cells == ArrayChunk(typ, vals, c).cells;
  }

  /**
   A frame published from a writer and opened on any node reads back row by
   row, in order, with the indices 0 to n - 1, whatever the number of rows.
   */
  method PublishThenMap(k: Key, kv: Stores, types: seq<char>, rows: seq<Row>, writer: nat, reader: nat)
    returns (visits: seq<(nat, Row)>)
    requires FrameFits(types, rows)
    modifies kv
    ensures visits == seq(|rows|, i requires 0 <= i < |rows| => (i, rows[i]))
  {
    hide FrameFits, Holds, Publication, NumChunks, Stored;
    var w := new RowWriter(rows);
    var _ := DataFrame.FromVisitor(k, kv, types, w, writer);
    var df := new DataFrame.FromStore(k, kv, reader, rows, types);
    visits := df.DistributedMap(kv, rows);
  }

  /** Any order of single-value reads of a one-column frame yields the values of the array. */
  method ReadInAnyOrder(df: DataFrame, kv: Stores, ghost rows: seq<Row>, order: seq<nat>) returns (vals: seq<Cell>)
    requires df.Opened(kv, rows) && |df.types| == 1 && df.Coherent(rows)
    requires forall i | 0 <= i < |order| :: order[i] < |rows|
    modifies df`cols, df`chunkIndex, df`mustLoad
    ensures df.Opened(kv, rows) && df.Coherent(rows)
    ensures |vals| == |order| && forall i | 0 <= i < |order| :: vals[i] == rows[order[i]][0]
  {
    hide Holds, CellFits, ChunkRows;
    vals := [];
    for i := 0 to |order|
      invariant df.Opened(kv, rows) && df.Coherent(rows)
      invariant |vals| == i && forall h | 0 <= h < i :: vals[h] == rows[order[h]][0]
    {
      var v := df.GetCell(0, order[i], kv, rows);
      vals := vals + [v.value];
    }
  }

  /**
   The first value read through a loader's own frame clears the load flag for
   all columns: the same row of any other column is then read past its end.
   */
  method SecondColumnIsNeverLoaded(k: Key, kv: Stores, types: seq<char>, rows: seq<Row>, me: nat, other: nat)
    returns (first: Option<Cell>, second: Option<Cell>)
    requires FrameFits(types, rows) && 0 < other < |types| && rows != []
    modifies kv
    ensures first == Some(rows[0][0]) && second == None
  {
    hide Holds, FrameFits, NumChunks, ChunkRows, Publication, Stored;
    var w := new RowWriter(rows);
    var df := DataFrame.FromVisitor(k, kv, types, w, me);
    assert df.cols[other].cells == [] && df.chunkIndex[other] == 0;
    first := df.GetCell(0, 0, kv, rows);
    second := df.GetCell(other, 0, kv, rows);
  }
}
