/**
 What a node has fetched of a frame determines what it reads: the bytes of the
 schema and of the chunks decode to the published rows and to no others.
 */
module FrameReads {
  import opened Params
  import opened Arith
  import opened Messages
  import opened Wire
  import opened Layout
  import opened Frames

  /** The schema, and all chunks or those homed on node `n`, are among the values at hand. */
  ghost predicate HasRead(held: map<Key, Blob>, k: Key, types: seq<char>, rows: seq<Row>, n: nat, local: bool) {
    && FrameFits(types, rows)
    && k in held && held[k] == EncSchema(Schema(types, |rows|))
    && forall j, c | 0 <= j < |types| && 0 <= c < NumChunks(|rows|) && (local ==> HomeOf(k, c) == n) ::
         HoldsChunk(held, k, types, rows, j, c)
  }

  /** The rows that are read: all of them, or those homed on node `n`. */
  function RowsFor(k: Key, rows: seq<Row>, n: nat, local: bool): seq<Row> {
    if local then LocalPart(k, rows, n) else rows
  }

  /** Whether a row is among them. */
  predicate IsRead(k: Key, i: nat, n: nat, local: bool) {
    local ==> HomeOf(k, i / CHUNK_SIZE) == n
  }

  lemma SameSchema(a: Schema, b: Schema)
    requires |a.types| < SIZE_LIMIT && a.height < SIZE_LIMIT && |b.types| < SIZE_LIMIT && b.height < SIZE_LIMIT
    requires EncSchema(a) == EncSchema(b)
    ensures a == b
  {
    hide EncSchema, ReadSchema;
    SchemaRead(a, []);
    SchemaRead(b, []);
  }

  lemma SameColumn(a: Column, b: Column)
    requires ColumnFits(a) && ColumnFits(b) && EncColumn(a) == EncColumn(b)
    ensures a == b
  {
    hide EncColumn, ReadColumn, ColumnFits;
    ColumnRead(a, []);
    ColumnRead(b, []);
  }

  lemma SameBlob(types: seq<char>, a: seq<Row>, b: seq<Row>, j: nat, c: nat)
    requires FrameFits(types, a) && FrameFits(types, b) && j < |types|
    requires ChunkBlob(types, a, j, c) == ChunkBlob(types, b, j, c)
    ensures Rectangular(types, ChunkRows(a, c)) && Rectangular(types, ChunkRows(b, c))
    ensures ColumnOf(types, ChunkRows(a, c), j) == ColumnOf(types, ChunkRows(b, c), j)
  {
    hide EncColumn, ColumnOf, ChunkRows, ColumnFits, FrameFits;
    ChunkFits(types, a, j, c);
    ChunkFits(types, b, j, c);
    RectangularChunk(types, a, c);
    RectangularChunk(types, b, c);
    SameColumn(ColumnOf(types, ChunkRows(a, c), j), ColumnOf(types, ChunkRows(b, c), j));
  }

  /** Rows read from the same values are the same. */
  lemma SameRow(held: map<Key, Blob>, k: Key, types: seq<char>, a: seq<Row>, b: seq<Row>, n: nat, local: bool, i: nat)
    requires HasRead(held, k, types, a, n, local) && HasRead(held, k, types, b, n, local) && |a| == |b|
    requires i < |a| && IsRead(k, i, n, local)
    ensures a[i] == b[i]
  {
    hide ChunkBlob, ColumnOf, ChunkRows, CellFits, EncSchema, NumChunks, ChunkKey, HomeOf;
    var c := i / CHUNK_SIZE;
    assert c < NumChunks(|a|) by {
      ChunkBelow(|a|, i);
    }
    forall j | 0 <= j < |types| ensures a[i][j] == b[i][j] {
      assert HoldsChunk(held, k, types, a, j, c) && HoldsChunk(held, k, types, b, j, c);
      SameBlob(types, a, b, j, c);
      CellInChunk(types, a, j, i);
      CellInChunk(types, b, j, i);
    }
    assert RowFits(types, a[i]) && RowFits(types, b[i]);
  }

  lemma ChunkBelow(n: nat, i: nat)
    requires i < n
    ensures i / CHUNK_SIZE < NumChunks(n)
  {
    hide Rows, ChunkOf, PosOf, NumChunks;
    ChunkOfIs(i);
    SlotParts(i);
    NumChunksCovers(n, ChunkOf(i));
  }

  /** What is read is determined by the values at hand. */
  lemma ReadIsUnique(held: map<Key, Blob>, k: Key, types: seq<char>, a: seq<Row>, types': seq<char>, b: seq<Row>,
                     n: nat, local: bool)
    requires HasRead(held, k, types, a, n, local) && HasRead(held, k, types', b, n, local)
    ensures types == types' && RowsFor(k, a, n, local) == RowsFor(k, b, n, local)
  {
    hide EncSchema, ChunkBlob, LocalIndices, NumChunks, ChunkKey, HomeOf, CellFits;
    SameSchema(Schema(types, |a|), Schema(types', |b|));
    forall i | 0 <= i < |a| && IsRead(k, i, n, local) ensures a[i] == b[i] {
      SameRow(held, k, types, a, b, n, local, i);
    }
    if local {
      var indices := LocalIndices(k, |a|, n, NumChunks(|a|));
      forall h | 0 <= h < |indices| ensures LocalPart(k, a, n)[h] == LocalPart(k, b, n)[h] {
        ExactPartition(k, |a|, n, indices[h]);
        assert indices[h] in indices;
      }
    } else {
      assert forall i | 0 <= i < |a| :: IsRead(k, i, n, local);
    }
  }
}
