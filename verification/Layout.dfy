/**
 How a frame lies in the stores: each column is cut into chunks, chunk `c` of
 every column goes to the `c`-th node counted from the frame's own, and the
 schema is stored last, under the frame's key. The stores of all nodes are
 seen as one map, because every key names the node it lives on.
 */
module Layout {
  import opened Params
  import opened Arith
  import opened Messages
  import opened Text
  import opened Wire

  type Row = seq<Cell>

  predicate RowFits(types: seq<char>, r: Row) {
    |r| == |types| && forall j | 0 <= j < |types| :: CellFits(types[j], r[j])
  }

  predicate FrameFits(types: seq<char>, rows: seq<Row>) {
    && |types| < SIZE_LIMIT && |rows| < SIZE_LIMIT
    && (forall t <- types :: t in "BIFS")
    && (forall i | 0 <= i < |rows| :: RowFits(types, rows[i]))
  }

  /** All rows have one cell per column. */
  predicate Rectangular(types: seq<char>, rows: seq<Row>) {
    forall i | 0 <= i < |rows| :: |rows[i]| == |types|
  }

  function Min(a: nat, b: nat): nat {
    if a < b then a else b
  }

  /** The rows of chunk `c`; past the end of the frame there are none. */
  function ChunkRows(rows: seq<Row>, c: nat): seq<Row> {
    RowsMonotone(c, c + 1);
    rows[Min(Rows(c), |rows|)..Min(Rows(c + 1), |rows|)]
  }

  function ColumnOf(types: seq<char>, rows: seq<Row>, j: nat): Column
    requires j < |types| && Rectangular(types, rows)
  {
    Column(types[j], seq(|rows|, i requires 0 <= i < |rows| => rows[i][j]))
  }

  function ChunkKey(k: Key, col: nat, chunk: nat): Key {
    Key(ChunkName(k.name, col, chunk), (k.node + chunk) % NUM_NODES)
  }

  lemma ChunkFits(types: seq<char>, rows: seq<Row>, j: nat, c: nat)
    requires FrameFits(types, rows) && j < |types|
    ensures FrameFits(types, ChunkRows(rows, c))
    ensures ColumnFits(ColumnOf(types, ChunkRows(rows, c), j))
  {
    hide Rows, CellFits;
    RowsMonotone(c, c + 1);
    var part := ChunkRows(rows, c);
    forall i | 0 <= i < |part| ensures RowFits(types, part[i]) {
      assert part[i] == rows[Min(Rows(c), |rows|) + i];
    }
    var column := ColumnOf(types, part, j);
    forall x <- column.cells ensures CellFits(types[j], x) {
      var i :| 0 <= i < |part| && column.cells[i] == x;
      assert RowFits(types, part[i]);
    }
  }

  function ChunkBlob(types: seq<char>, rows: seq<Row>, j: nat, c: nat): Blob
    requires FrameFits(types, rows) && j < |types|
  {
    ChunkFits(types, rows, j, c);
    EncColumn(ColumnOf(types, ChunkRows(rows, c), j))
  }

  // ---------- what a publication puts ----------

  /** The first `w` columns of chunk `c`. */
  function ColumnPuts(k: Key, types: seq<char>, rows: seq<Row>, c: nat, w: nat): seq<(Key, Blob)>
    requires FrameFits(types, rows) && w <= |types|
  {
    if w == 0 then []
    else ColumnPuts(k, types, rows, c, w - 1) + [(ChunkKey(k, w - 1, c), ChunkBlob(types, rows, w - 1, c))]
  }

  /** The first `m` chunks, one after the other. */
  function ChunkPuts(k: Key, types: seq<char>, rows: seq<Row>, m: nat): seq<(Key, Blob)>
    requires FrameFits(types, rows)
  {
    if m == 0 then []
    else ChunkPuts(k, types, rows, m - 1) + ColumnPuts(k, types, rows, m - 1, |types|)
  }

  function SchemaPut(k: Key, types: seq<char>, n: nat): (Key, Blob) {
    (k, EncSchema(Schema(types, n)))
  }

  /** All chunks first, the schema last. */
  function Publication(k: Key, types: seq<char>, rows: seq<Row>, m: nat): seq<(Key, Blob)>
    requires FrameFits(types, rows)
  {
    ChunkPuts(k, types, rows, m) + [SchemaPut(k, types, |rows|)]
  }

  /** The number of chunks that hold rows: a last partial chunk counts. */
  function NumChunks(n: nat): nat {
    if n % CHUNK_SIZE == 0 then n / CHUNK_SIZE else n / CHUNK_SIZE + 1
  }

  /** The chunks stored for a file: those that are full, and one more. */
  function StoredChunks(n: nat): (m: nat)
    ensures NumChunks(n) <= m
  {
    n / CHUNK_SIZE + 1
  }

  lemma NumChunksCovers(n: nat, c: nat)
    ensures c < NumChunks(n) <==> Rows(c) < n
    ensures NumChunks(n) <= n / CHUNK_SIZE + 1
  {
    hide Rows, ChunkOf, PosOf;
    ChunkOfIs(n);
    SlotParts(n);
    if c < ChunkOf(n) {
      RowsMonotone(c, ChunkOf(n));
    } else if ChunkOf(n) < c {
      RowsMonotone(ChunkOf(n), c);
    }
  }

  // ---------- the stores ----------

  function Stored(entries: map<Key, Blob>, puts: seq<(Key, Blob)>): map<Key, Blob> {
    if puts == [] then entries
    else
      var last := puts[|puts| - 1];
      Stored(entries, puts[..|puts| - 1])[last.0 := last.1]
  }

  lemma {:induction false} StoredGet(entries: map<Key, Blob>, puts: seq<(Key, Blob)>, k: Key, v: Blob)
    requires (k, v) in puts
    requires forall p <- puts :: p.0 == k ==> p.1 == v
    ensures k in Stored(entries, puts) && Stored(entries, puts)[k] == v
  {
    var rest, last := puts[..|puts| - 1], puts[|puts| - 1];
    assert puts == rest + [last];
    if last.0 != k {
      StoredGet(entries, rest, k, v);
    }
  }

  lemma {:induction false} StoredKeeps(entries: map<Key, Blob>, puts: seq<(Key, Blob)>, k: Key)
    requires forall p <- puts :: p.0 != k
    ensures k in Stored(entries, puts) <==> k in entries
    ensures k in entries ==> Stored(entries, puts)[k] == entries[k]
  {
    if puts != [] {
      var rest, last := puts[..|puts| - 1], puts[|puts| - 1];
      assert puts == rest + [last];
      StoredKeeps(entries, rest, k);
    }
  }

  /** The stores hold the frame: its schema and every chunk that has rows. */
  ghost predicate Holds(entries: map<Key, Blob>, k: Key, types: seq<char>, rows: seq<Row>)
    requires FrameFits(types, rows)
  {
    && k in entries && entries[k] == EncSchema(Schema(types, |rows|))
    && forall j, c | 0 <= j < |types| && 0 <= c < NumChunks(|rows|) ::
         HoldsChunk(entries, k, types, rows, j, c)
  }

  ghost predicate HoldsChunk(entries: map<Key, Blob>, k: Key, types: seq<char>, rows: seq<Row>, j: nat, c: nat)
    requires FrameFits(types, rows) && j < |types|
  {
    ChunkKey(k, j, c) in entries && entries[ChunkKey(k, j, c)] == ChunkBlob(types, rows, j, c)
  }

  lemma {:induction false} ColumnPutsAre(k: Key, types: seq<char>, rows: seq<Row>, c: nat, w: nat, p: (Key, Blob))
    requires FrameFits(types, rows) && w <= |types|
    ensures p in ColumnPuts(k, types, rows, c, w) <==>
            exists j | 0 <= j < w :: p == (ChunkKey(k, j, c), ChunkBlob(types, rows, j, c))
  {
    hide ChunkKey, ChunkBlob;
    if w > 0 {
      ColumnPutsAre(k, types, rows, c, w - 1, p);
    }
  }

  lemma {:induction false} ChunkPutsAre(k: Key, types: seq<char>, rows: seq<Row>, m: nat, p: (Key, Blob))
    requires FrameFits(types, rows)
    ensures p in ChunkPuts(k, types, rows, m) <==>
            exists c, j | 0 <= c < m && 0 <= j < |types| :: p == (ChunkKey(k, j, c), ChunkBlob(types, rows, j, c))
  {
    hide ChunkKey, ChunkBlob, ColumnPuts;
    if m > 0 {
      ChunkPutsAre(k, types, rows, m - 1, p);
      ColumnPutsAre(k, types, rows, m - 1, |types|, p);
    }
  }

  /** A frame's own name is never the name of a chunk of it. */
  lemma NameIsNoChunk(name: string, col: nat, chunk: nat)
    ensures name != ChunkName(name, col, chunk)
  {
    var infix := "-column";
    assert ChunkName(name, col, chunk) == CStr(name) + (infix + (Decimal(col) + ("-chunk" + Decimal(chunk))));
    if '\0' !in name {
      assert |ChunkName(name, col, chunk)| > |name|;
    } else {
      NoNulInChunkName(name, col, chunk);
    }
  }

  lemma NoNulInChunkName(name: string, col: nat, chunk: nat)
    ensures '\0' !in ChunkName(name, col, chunk)
  {
    hide CStr, Decimal;
    assert '\0' !in Decimal(col) && '\0' !in Decimal(chunk);
    assert '\0' !in "-column" && '\0' !in "-chunk";
  }

  /** Distinct chunks of a frame never share a key, so no put of a publication undoes another. */
  lemma PublicationHolds(entries: map<Key, Blob>, k: Key, types: seq<char>, rows: seq<Row>, m: nat)
    requires FrameFits(types, rows) && NumChunks(|rows|) <= m
    ensures Holds(Stored(entries, Publication(k, types, rows, m)), k, types, rows)
  {
    hide ChunkBlob, EncSchema, NumChunks;
    var chunks, schema := ChunkPuts(k, types, rows, m), SchemaPut(k, types, |rows|);
    var puts := Publication(k, types, rows, m);
    forall j, c | 0 <= j < |types| && 0 <= c < NumChunks(|rows|)
      ensures HoldsChunk(Stored(entries, puts), k, types, rows, j, c)
    {
      ChunkIsStored(entries, k, types, rows, m, j, c);
    }
    assert puts[..|puts| - 1] == chunks;
  }

  lemma ChunkIsStored(entries: map<Key, Blob>, k: Key, types: seq<char>, rows: seq<Row>, m: nat, j: nat, c: nat)
    requires FrameFits(types, rows) && j < |types| && c < m
    ensures HoldsChunk(Stored(entries, Publication(k, types, rows, m)), k, types, rows, j, c)
  {
    hide ChunkBlob, EncSchema, ChunkName, ChunkPuts, Stored;
    var chunks := ChunkPuts(k, types, rows, m);
    var key, blob := ChunkKey(k, j, c), ChunkBlob(types, rows, j, c);
    ChunkPutsAre(k, types, rows, m, (key, blob));
    forall p <- chunks | p.0 == key ensures p.1 == blob {
      ChunkPutsAre(k, types, rows, m, p);
      var c', j' :| 0 <= c' < m && 0 <= j' < |types| && p == (ChunkKey(k, j', c'), ChunkBlob(types, rows, j', c'));
      ChunkNameInjective(k.name, j, c, k.name, j', c');
    }
    NameIsNoChunk(k.name, j, c);
    StoredGet(entries, Publication(k, types, rows, m), key, blob);
  }

  /** Chunks of two frames never share a key, if the frames differ in name or in node. */
  lemma ChunkKeysDiffer(k: Key, j: nat, c: nat, k': Key, j': nat, c': nat)
    requires '\0' !in k.name && '\0' !in k'.name
    requires k.name != k'.name || (k.node != k'.node && k.node < NUM_NODES && k'.node < NUM_NODES)
    ensures ChunkKey(k, j, c) != ChunkKey(k', j', c')
  {
    hide ChunkName;
    if ChunkName(k.name, j, c) == ChunkName(k'.name, j', c') {
      ChunkNameInjective(k.name, j, c, k'.name, j', c');
      assert k.name == k'.name && c == c' by {
        ChunkNamesSame(k.name, j, c, k'.name, j', c');
      }
      ShiftDiffers(k.node, k'.node, c);
    }
  }

  lemma ChunkNamesSame(name: string, j: nat, c: nat, name': string, j': nat, c': nat)
    requires '\0' !in name && '\0' !in name' && ChunkName(name, j, c) == ChunkName(name', j', c')
    ensures name == name' && c == c'
  {
    ChunkNameInjective(name, j, c, name', j', c');
  }

  /** Moving round the ring of nodes keeps nodes apart. */
  lemma ShiftDiffers(a: nat, b: nat, c: nat)
    requires a < NUM_NODES && b < NUM_NODES && a != b
    ensures (a + c) % NUM_NODES != (b + c) % NUM_NODES
  {
    var n: int, qa, qb := NUM_NODES, (a + c) / NUM_NODES, (b + c) / NUM_NODES;
    if (a + c) % n == (b + c) % n {
      assert a - b == n * qa - n * qb;
      assert n * qa - n * qb == n * (qa - qb);
      MultipleBelow(n, qa - qb);
    }
  }

  lemma MultipleBelow(n: int, q: int)
    requires n > 0
    ensures q >= 1 ==> n * q >= n
    ensures q <= -1 ==> n * q <= -n
  {
  }

  /** Publishing one frame leaves another intact, unless one is named like a chunk of the other. */
  lemma FramesDoNotInterfere(entries: map<Key, Blob>, k: Key, types: seq<char>, rows: seq<Row>,
                             k': Key, types': seq<char>, rows': seq<Row>, m: nat)
    requires FrameFits(types, rows) && FrameFits(types', rows')
    requires Holds(entries, k, types, rows)
    requires '\0' !in k.name && '\0' !in k'.name
    requires k.name != k'.name || (k.node != k'.node && k.node < NUM_NODES && k'.node < NUM_NODES)
    requires forall col, chunk :: k.name != ChunkName(k'.name, col, chunk) && k'.name != ChunkName(k.name, col, chunk)
    ensures Holds(Stored(entries, Publication(k', types', rows', m)), k, types, rows)
  {
    hide ChunkBlob, EncSchema, ChunkName, ChunkPuts, Stored, NumChunks;
    var puts := Publication(k', types', rows', m);
    forall p <- puts ensures p.0 != k && forall j, c :: p.0 != ChunkKey(k, j, c) {
      if p in ChunkPuts(k', types', rows', m) {
        ChunkPutsAre(k', types', rows', m, p);
        var c', j' :| 0 <= c' < m && 0 <= j' < |types'| &&
                      p == (ChunkKey(k', j', c'), ChunkBlob(types', rows', j', c'));
        forall j, c ensures p.0 != ChunkKey(k, j, c) {
          ChunkKeysDiffer(k, j, c, k', j', c');
        }
      }
    }
    StoredKeeps(entries, puts, k);
    forall j, c | 0 <= j < |types| && 0 <= c < NumChunks(|rows|)
      ensures HoldsChunk(Stored(entries, puts), k, types, rows, j, c)
    {
      assert HoldsChunk(entries, k, types, rows, j, c);
      StoredKeeps(entries, puts, ChunkKey(k, j, c));
    }
  }

  // ---------- who holds which rows ----------

  function HomeOf(k: Key, chunk: nat): nat {
    (chunk + k.node) % NUM_NODES
  }

  /** The rows a local map visits on node `me` in the first `m` chunks of a frame of `n` rows. */
  function LocalIndices(k: Key, n: nat, me: nat, m: nat): seq<nat> {
    if m == 0 then []
    else LocalIndices(k, n, me, m - 1) + (if HomeOf(k, m - 1) == me then ChunkIndices(n, m - 1) else [])
  }

  function RowsAt(rows: seq<Row>, indices: seq<nat>): (part: seq<Row>)
    ensures |part| == |indices|
  {
    seq(|indices|, i requires 0 <= i < |indices| => if indices[i] < |rows| then rows[indices[i]] else [])
  }

  /** The rows of a frame that a local map visits on node `me`. */
  function LocalPart(k: Key, rows: seq<Row>, me: nat): seq<Row> {
    RowsAt(rows, LocalIndices(k, |rows|, me, NumChunks(|rows|)))
  }

  function ChunkIndices(n: nat, c: nat): seq<nat> {
    RowsMonotone(c, c + 1);
    var lo, hi := Min(Rows(c), n), Min(Rows(c + 1), n);
    seq(hi - lo, i requires 0 <= i < hi - lo => lo + i)
  }

  lemma {:induction false} LocalIndicesAre(k: Key, n: nat, me: nat, m: nat, i: nat)
    ensures i in LocalIndices(k, n, me, m) <==> i < n && ChunkOf(i) < m && HomeOf(k, ChunkOf(i)) == me
  {
    hide Rows, ChunkOf, HomeOf;
    if m > 0 {
      LocalIndicesAre(k, n, me, m - 1, i);
      RowsMonotone(m - 1, m);
      SlotBelow(i, m - 1);
      SlotBelow(i, m);
      var lo, hi := Min(Rows(m - 1), n), Min(Rows(m), n);
      assert i in ChunkIndices(n, m - 1) <==> lo <= i < hi by {
        if lo <= i < hi {
          assert ChunkIndices(n, m - 1)[i - lo] == i;
        }
      }
    }
  }

  /** Every row is visited by a local map on exactly one node: the home of its chunk. */
  lemma ExactPartition(k: Key, n: nat, me: nat, i: nat)
    ensures i in LocalIndices(k, n, me, NumChunks(n)) <==> i < n && me == HomeOf(k, i / CHUNK_SIZE)
    ensures HomeOf(k, i / CHUNK_SIZE) < NUM_NODES
  {
    hide Rows, ChunkOf, NumChunks;
    LocalIndicesAre(k, n, me, NumChunks(n), i);
    ChunkOfIs(i);
    SlotParts(i);
    NumChunksCovers(n, ChunkOf(i));
  }

  /** A local map visits its rows in ascending order, each once. */
  lemma {:induction false} LocalIndicesSorted(k: Key, n: nat, me: nat, m: nat)
    ensures forall x <- LocalIndices(k, n, me, m) :: x < Rows(m)
    ensures forall a, b | 0 <= a < b < |LocalIndices(k, n, me, m)| ::
              LocalIndices(k, n, me, m)[a] < LocalIndices(k, n, me, m)[b]
  {
    hide Rows, HomeOf;
    if m > 0 {
      LocalIndicesSorted(k, n, me, m - 1);
      RowsMonotone(m - 1, m);
      var s, t := LocalIndices(k, n, me, m - 1), ChunkIndices(n, m - 1);
      assert forall a | 0 <= a < |t| :: t[a] == Rows(m - 1) + a < Rows(m);
      assert forall x <- t :: Rows(m - 1) <= x < Rows(m);
      forall a | 0 <= a < |s| ensures s[a] < Rows(m - 1) {
        assert s[a] in s;
      }
    }
  }
}
