/**
 The index arithmetic of chunks. `Rows(n)` is the number of slots in `n`
 chunks; slot `p` lies in chunk `ChunkOf(p)` at position `PosOf(p)`. They are
 n * CHUNK_SIZE, p / CHUNK_SIZE and p % CHUNK_SIZE, spelled out by recursion so
 that proofs about them stay linear.
 */
module Arith {
  import opened Params

  function Rows(n: nat): nat {
    if n == 0 then 0 else Rows(n - 1) + CHUNK_SIZE
  }

  function ChunkOf(p: nat): nat {
    if p < CHUNK_SIZE then 0 else 1 + ChunkOf(p - CHUNK_SIZE)
  }

  function PosOf(p: nat): (r: nat)
    ensures r < CHUNK_SIZE
  {
    if p < CHUNK_SIZE then p else PosOf(p - CHUNK_SIZE)
  }

  lemma {:induction false} RowsIs(n: nat)
    ensures Rows(n) == n * CHUNK_SIZE
  {
    if n > 0 {
      RowsIs(n - 1);
      assert n * CHUNK_SIZE == (n - 1) * CHUNK_SIZE + CHUNK_SIZE;
    }
  }

  lemma MulAtLeast(d: nat, c: nat)
    requires d >= 1
    ensures d * c >= c
  {
    assert d * c == (d - 1) * c + c;
    assert (d - 1) * c >= 0;
  }

  lemma MulMinus(a: int, b: int, c: int)
    ensures (a - b) * c == a * c - b * c
  {
  }

  /** Quotient and remainder are unique. */
  lemma DivModUnique(p: nat, c: nat, q: nat, r: nat)
    requires r < c && p == q * c + r
    ensures p / c == q && p % c == r
  {
    var q', r' := p / c, p % c;
    assert p == q' * c + r' && 0 <= r' < c;
    if q' < q {
      MulMinus(q, q', c);
      MulAtLeast(q - q', c);
    } else if q < q' {
      MulMinus(q', q, c);
      MulAtLeast(q' - q, c);
    }
  }

  lemma DivStep(p: nat, c: nat)
    requires 0 < c <= p
    ensures p / c == (p - c) / c + 1 && p % c == (p - c) % c
  {
    var q, r := (p - c) / c, (p - c) % c;
    assert p - c == q * c + r && 0 <= r < c;
    assert (q + 1) * c == q * c + c;
    DivModUnique(p, c, q + 1, r);
  }

  lemma {:induction false} ChunkOfIs(p: nat)
    ensures ChunkOf(p) == p / CHUNK_SIZE && PosOf(p) == p % CHUNK_SIZE
  {
    if p >= CHUNK_SIZE {
      ChunkOfIs(p - CHUNK_SIZE);
      DivStep(p, CHUNK_SIZE);
    }
  }

  lemma {:induction false} RowsAdd(a: nat, b: nat)
    ensures Rows(a + b) == Rows(a) + Rows(b)
  {
    if b > 0 {
      RowsAdd(a, b - 1);
    }
  }

  lemma RowsMonotone(a: nat, b: nat)
    requires a < b
    ensures Rows(a) + CHUNK_SIZE <= Rows(b)
  {
    RowsAdd(a + 1, b - a - 1);
  }

  /** Every slot is where its chunk and position say. */
  lemma {:induction false} SlotParts(p: nat)
    ensures p == Rows(ChunkOf(p)) + PosOf(p)
  {
    if p >= CHUNK_SIZE {
      SlotParts(p - CHUNK_SIZE);
    }
  }

  /** And nowhere else. */
  lemma {:induction false} PartsSlot(chunk: nat, pos: nat)
    requires pos < CHUNK_SIZE
    ensures ChunkOf(Rows(chunk) + pos) == chunk && PosOf(Rows(chunk) + pos) == pos
  {
    if chunk > 0 {
      PartsSlot(chunk - 1, pos);
    }
  }

  lemma SlotBelow(p: nat, n: nat)
    ensures p < Rows(n) <==> ChunkOf(p) < n
  {
    hide Rows, ChunkOf, PosOf;
    SlotParts(p);
    if ChunkOf(p) < n {
      RowsMonotone(ChunkOf(p), n);
    } else if n < ChunkOf(p) {
      RowsMonotone(n, ChunkOf(p));
    }
  }

  /** `i` steps on from `start` in a ring. */
  function Wrap(i: nat, start: nat, capacity: nat): (p: nat)
    requires start < capacity && i <= capacity
    ensures p < capacity
  {
    if i + start < capacity then i + start else i + start - capacity
  }

  lemma WrapIs(i: nat, start: nat, capacity: nat)
    requires start < capacity && i <= capacity
    ensures Wrap(i, start, capacity) == (i + start) % capacity
  {
    if i + start < capacity {
      DivModUnique(i + start, capacity, 0, i + start);
    } else {
      DivModUnique(i + start, capacity, 1, i + start - capacity);
    }
  }

  /**
   Counting slots from position `PosOf(start)` of chunk `ChunkOf(start)` on,
   element `i` of the ring keeps its position, and its chunk is counted round
   the ring. Counted so, at most one chunk beyond the last is needed.
   */
  lemma GrowthIndex(i: nat, start: nat, chunks: nat)
    requires start < Rows(chunks) && i < Rows(chunks)
    ensures var p := i + PosOf(start);
            var q := Wrap(i, start, Rows(chunks));
            && ChunkOf(p) <= chunks && ChunkOf(start) < chunks
            && ChunkOf(q) == Wrap(ChunkOf(p), ChunkOf(start), chunks)
            && PosOf(q) == PosOf(p)
  {
    hide Rows, ChunkOf, PosOf;
    var p := i + PosOf(start);
    var total := ChunkOf(start) + ChunkOf(p);
    SlotBelow(start, chunks);
    RowsMonotone(chunks, chunks + 1);
    SlotBelow(p, chunks + 1);
    SlotParts(start);
    SlotParts(p);
    RowsAdd(ChunkOf(start), ChunkOf(p));
    assert i + start == Rows(total) + PosOf(p);
    PartsSlot(total, PosOf(p));
    SlotBelow(i + start, chunks);
    if total >= chunks {
      RowsAdd(chunks, total - chunks);
      PartsSlot(total - chunks, PosOf(p));
    }
  }
}
