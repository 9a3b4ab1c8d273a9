/**
 Where chunks live: the chunks of a frame are dealt round the ring of nodes,
 beginning with the frame's own node, so every node gets its fair share.
 */
module Placement {
  import opened Params
  import opened Arith
  import opened Messages
  import opened Layout

  /** The next node round the ring. */
  function After(node: nat): nat {
    if node == NUM_NODES - 1 then 0 else node + 1
  }

  /** The node reached from `node` by that many steps round the ring. */
  function Walk(node: nat, steps: nat): nat {
    if steps == 0 then node else After(Walk(node, steps - 1))
  }

  lemma NextMod(m: nat, n: nat)
    requires n > 0
    ensures (m + 1) % n == if m % n == n - 1 then 0 else m % n + 1
    ensures (m + 1) / n == if m % n == n - 1 then m / n + 1 else m / n
  {
    var q, r := m / n, m % n;
    assert m == q * n + r;
    if r == n - 1 {
      assert m + 1 == (q + 1) * n + 0;
      DivModUnique(m + 1, n, q + 1, 0);
    } else {
      DivModUnique(m + 1, n, q, r + 1);
    }
  }

  /** Chunk 0 is at home on the frame's own node, every other chunk on the node after that of the chunk before. */
  lemma HomesGoRound(k: Key, c: nat)
    requires k.node < NUM_NODES
    ensures HomeOf(k, 0) == k.node
    ensures HomeOf(k, c + 1) == After(HomeOf(k, c))
  {
    DivModUnique(k.node, NUM_NODES, 0, k.node);
    NextMod(c + k.node, NUM_NODES);
  }

  lemma {:induction false} HomeIsWalk(k: Key, c: nat)
    requires k.node < NUM_NODES
    ensures HomeOf(k, c) == Walk(k.node, c)
  {
    hide HomeOf, After;
    if c == 0 {
      HomesGoRound(k, 0);
    } else {
      HomeIsWalk(k, c - 1);
      HomesGoRound(k, c - 1);
    }
  }

  /** All columns of a chunk are put on the chunk's home, that many steps round the ring from the frame's node. */
  lemma KeysNameTheHome(k: Key, j: nat, c: nat)
    requires k.node < NUM_NODES
    ensures ChunkKey(k, j, c).node == HomeOf(k, c) == Walk(k.node, c) < NUM_NODES
  {
    HomeIsWalk(k, c);
  }

  /** A local map visits a row exactly on the node that many steps round the ring from the frame's own. */
  lemma RowsGoRound(k: Key, n: nat, me: nat, i: nat)
    requires k.node < NUM_NODES
    ensures i in LocalIndices(k, n, me, NumChunks(n)) <==> i < n && me == Walk(k.node, i / CHUNK_SIZE)
  {
    hide HomeOf, Walk, LocalIndices, NumChunks;
    ExactPartition(k, n, me, i);
    HomeIsWalk(k, i / CHUNK_SIZE);
  }

  /** The first chunk at home on a node. */
  function FirstChunk(k: Key, me: nat): nat
    requires k.node < NUM_NODES && me < NUM_NODES
  {
    if k.node <= me then me - k.node else me + NUM_NODES - k.node
  }

  /** A node has the chunks whose number agrees with that of its first chunk, counted round the ring. */
  lemma HomeByFirst(k: Key, me: nat, c: nat)
    requires k.node < NUM_NODES && me < NUM_NODES
    ensures HomeOf(k, c) == me <==> c % NUM_NODES == FirstChunk(k, me)
  {
    hide HomeOf;
    assert HomeOf(k, c) == if k.node + c % NUM_NODES < NUM_NODES
                           then k.node + c % NUM_NODES else k.node + c % NUM_NODES - NUM_NODES by {
      HomeByRest(k, c);
    }
  }

  lemma {:induction false} HomeByRest(k: Key, c: nat)
    requires k.node < NUM_NODES
    ensures HomeOf(k, c) == if k.node + c % NUM_NODES < NUM_NODES
                            then k.node + c % NUM_NODES else k.node + c % NUM_NODES - NUM_NODES
  {
    hide HomeOf;
    if c == 0 {
      DivModUnique(0, NUM_NODES, 0, 0);
      HomesGoRound(k, 0);
    } else {
      HomeByRest(k, c - 1);
      HomesGoRound(k, c - 1);
      NextMod(c - 1, NUM_NODES);
    }
  }

  /** Two chunks share a home if and only if their numbers agree modulo the number of nodes. */
  lemma SameHomeIff(k: Key, c: nat, c': nat)
    requires k.node < NUM_NODES
    ensures HomeOf(k, c) == HomeOf(k, c') <==> c % NUM_NODES == c' % NUM_NODES
  {
    hide HomeOf;
    HomeByRest(k, c);
    HomeByRest(k, c');
  }

  // ---------- shares ----------

  /** How many of the first `m` chunks are at home on node `me`. */
  function HomedChunks(k: Key, me: nat, m: nat): nat {
    if m == 0 then 0 else HomedChunks(k, me, m - 1) + if HomeOf(k, m - 1) == me then 1 else 0
  }

  /** Every node gets an equal number of chunks, and those from the frame's node on get the rest. */
  lemma {:induction false} SharesAreFair(k: Key, me: nat, m: nat)
    requires k.node < NUM_NODES && me < NUM_NODES
    ensures HomedChunks(k, me, m) == m / NUM_NODES + if FirstChunk(k, me) < m % NUM_NODES then 1 else 0
  {
    hide HomeOf;
    if m == 0 {
      DivModUnique(0, NUM_NODES, 0, 0);
    } else {
      SharesAreFair(k, me, m - 1);
      HomeByFirst(k, me, m - 1);
      NextMod(m - 1, NUM_NODES);
    }
  }

  /** With at least as many chunks as nodes, a local map has rows to visit on every node. */
  lemma EveryNodeHasRows(k: Key, rows: seq<Row>, me: nat)
    requires k.node < NUM_NODES && me < NUM_NODES && NUM_NODES <= NumChunks(|rows|)
    ensures LocalPart(k, rows, me) != []
  {
    hide HomeOf, Rows, ChunkOf, NumChunks, LocalIndices;
    var c := FirstChunk(k, me);
    DivModUnique(c, NUM_NODES, 0, c);
    HomeByFirst(k, me, c);
    NumChunksCovers(|rows|, c);
    PartsSlot(c, 0);
    LocalIndicesAre(k, |rows|, me, NumChunks(|rows|), Rows(c));
  }

  /** The chunk that loaders of files and arrays store last is never full, and may be empty. */
  lemma LastChunkIsPartial(rows: seq<Row>)
    ensures |ChunkRows(rows, StoredChunks(|rows|) - 1)| == |rows| % CHUNK_SIZE
  {
    hide Rows, ChunkOf;
    var n, c := |rows|, StoredChunks(|rows|) - 1;
    ChunkOfIs(n);
    SlotParts(n);
    RowsMonotone(c, c + 1);
    assert c == ChunkOf(n);
    assert Rows(c) + n % CHUNK_SIZE == n < Rows(c + 1);
  }
}
