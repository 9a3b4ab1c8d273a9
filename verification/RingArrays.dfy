/**
 The chunked ring array behind every list and queue: a table of chunks of
 `CHUNK_SIZE` slots, used as one ring that starts at slot `startPos`.
 */
module RingArrays {
  import opened Params
  import opened Arith

  // ---------- rings as values ----------

  ghost predicate Regular<T>(chunks: seq<seq<T>>) {
    chunks != [] && forall c <- chunks :: |c| == CHUNK_SIZE
  }

  ghost function At<T>(chunks: seq<seq<T>>, p: nat): T
    requires Regular(chunks) && p < Rows(|chunks|)
  {
    SlotBelow(p, |chunks|);
    chunks[ChunkOf(p)][PosOf(p)]
  }

  ghost function SetAt<T>(chunks: seq<seq<T>>, p: nat, e: T): (chunks': seq<seq<T>>)
    requires Regular(chunks) && p < Rows(|chunks|)
    ensures Regular(chunks') && |chunks'| == |chunks|
  {
    SlotBelow(p, |chunks|);
    chunks[ChunkOf(p) := chunks[ChunkOf(p)][PosOf(p) := e]]
  }

  /** The first `n` elements of a ring. */
  ghost function Unrolled<T>(chunks: seq<seq<T>>, start: nat, n: nat): (s: seq<T>)
    requires Regular(chunks) && start < Rows(|chunks|) && n <= Rows(|chunks|)
    ensures |s| == n
  {
    seq(n, i requires 0 <= i < n => At(chunks, Wrap(i, start, Rows(|chunks|))))
  }

  lemma SetAtGet<T>(chunks: seq<seq<T>>, p: nat, e: T, q: nat)
    requires Regular(chunks) && p < Rows(|chunks|) && q < Rows(|chunks|)
    ensures At(SetAt(chunks, p, e), q) == if q == p then e else At(chunks, q)
  {
    hide Rows, ChunkOf, PosOf;
    SlotParts(p);
    SlotParts(q);
    SlotBelow(p, |chunks|);
    SlotBelow(q, |chunks|);
  }

  /** Writing the slot of element `i` changes that element and no other. */
  lemma UnrolledUpdate<T>(chunks: seq<seq<T>>, start: nat, n: nat, i: nat, e: T)
    requires Regular(chunks) && start < Rows(|chunks|) && n <= Rows(|chunks|) && i < Rows(|chunks|)
    ensures var chunks' := SetAt(chunks, Wrap(i, start, Rows(|chunks|)), e);
            Unrolled(chunks', start, n) ==
            if i < n then Unrolled(chunks, start, n)[i := e] else Unrolled(chunks, start, n)
  {
    hide Rows, ChunkOf, PosOf;
    var p := Wrap(i, start, Rows(|chunks|));
    forall j | 0 <= j < n
      ensures Unrolled(SetAt(chunks, p, e), start, n)[j] == if j == i then e else Unrolled(chunks, start, n)[j]
    {
      SetAtGet(chunks, p, e, Wrap(j, start, Rows(|chunks|)));
    }
  }

  /** Dropping the first element is starting one slot later. */
  lemma UnrolledRest<T>(chunks: seq<seq<T>>, start: nat, n: nat)
    requires Regular(chunks) && start < Rows(|chunks|) && 0 < n <= Rows(|chunks|)
    ensures Unrolled(chunks, Wrap(1, start, Rows(|chunks|)), n - 1) == Unrolled(chunks, start, n)[1..]
  {
    hide Rows, At;
    var cap := Rows(|chunks|);
    forall i | 0 <= i < n - 1 ensures Wrap(i, Wrap(1, start, cap), cap) == Wrap(i + 1, start, cap) {
    }
  }

  /**
   A grown table lists the chunks from the one that holds the start, then that
   one once more, and starts inside its first chunk. Element `i` keeps its
   position in its chunk; elements that had wrapped into the split first chunk
   are now found in its second copy.
   */
  lemma GrowthKeepsOne<T>(chunks: seq<seq<T>>, chunks': seq<seq<T>>, start: nat, i: nat)
    requires Regular(chunks) && Regular(chunks') && |chunks| < |chunks'|
    requires start < Rows(|chunks|) && i < Rows(|chunks|)
    requires ChunkOf(start) < |chunks|
    requires forall k | 0 <= k <= |chunks| :: chunks'[k] == chunks[Wrap(k, ChunkOf(start), |chunks|)]
    ensures i + PosOf(start) < Rows(|chunks'|)
    ensures At(chunks', i + PosOf(start)) == At(chunks, Wrap(i, start, Rows(|chunks|)))
  {
    hide *;
    var p := i + PosOf(start);
    GrowthIndex(i, start, |chunks|);
    RowsMonotone(|chunks|, |chunks'|);
    SlotBelow(p, |chunks'|);
    AtIs(chunks', p);
    AtIs(chunks, Wrap(i, start, Rows(|chunks|)));
  }

  lemma AtIs<T>(chunks: seq<seq<T>>, p: nat)
    requires Regular(chunks) && p < Rows(|chunks|)
    ensures ChunkOf(p) < |chunks| && |chunks[ChunkOf(p)]| == CHUNK_SIZE
    ensures At(chunks, p) == chunks[ChunkOf(p)][PosOf(p)]
  {
    hide Rows, ChunkOf, PosOf;
    SlotBelow(p, |chunks|);
  }

  lemma GrowthKeeps<T>(chunks: seq<seq<T>>, chunks': seq<seq<T>>, start: nat, n: nat)
    requires Regular(chunks) && Regular(chunks') && |chunks| < |chunks'|
    requires start < Rows(|chunks|) && n <= Rows(|chunks|)
    requires ChunkOf(start) < |chunks|
    requires forall k | 0 <= k <= |chunks| :: chunks'[k] == chunks[Wrap(k, ChunkOf(start), |chunks|)]
    ensures PosOf(start) < Rows(|chunks'|) && n <= Rows(|chunks'|)
    ensures Unrolled(chunks', PosOf(start), n) == Unrolled(chunks, start, n)
  {
    hide Rows, ChunkOf, PosOf;
    RowsMonotone(0, |chunks'|);
    RowsMonotone(|chunks|, |chunks'|);
    forall i | 0 <= i < n
      ensures At(chunks', Wrap(i, PosOf(start), Rows(|chunks'|))) == At(chunks, Wrap(i, start, Rows(|chunks|)))
    {
      GrowthKeepsOne(chunks, chunks', start, i);
    }
  }

  /** The growth rule leaves room for what was asked and adds at least one chunk. */
  lemma EnoughChunks(wanted: nat, chunks: nat)
    requires wanted > Rows(chunks)
    ensures wanted * 2 / CHUNK_SIZE + 1 > chunks
    ensures wanted <= Rows(wanted * 2 / CHUNK_SIZE + 1)
  {
    hide Rows, ChunkOf, PosOf;
    ChunkOfIs(wanted * 2);
    SlotBelow(wanted * 2, chunks);
    SlotBelow(wanted * 2, ChunkOf(wanted * 2) + 1);
  }

  lemma AllAppended<T>(v: seq<T>, v': seq<T>, own: seq<T>, more: seq<T>)
    requires |own| + |more| <= |v| == |v'| && own == v[..|own|]
    requires forall j | 0 <= j < |own| :: v'[j] == v[j]
    requires forall j | 0 <= j < |more| :: v'[|own| + j] == more[j]
    ensures v'[..|own| + |more|] == own + more
  {
    forall k | 0 <= k < |own| + |more| ensures v'[k] == (own + more)[k] {
      assert k >= |own| ==> v'[|own| + (k - |own|)] == more[k - |own|];
    }
  }

  lemma OneRemoved<T>(v: seq<T>, v': seq<T>, n: nat, index: nat)
    requires index < n <= |v| == |v'|
    requires forall j | 0 <= j < index :: v'[j] == v[j]
    requires forall j | index <= j < n - 1 :: v'[j] == v[j + 1]
    ensures v'[..n - 1] == v[..n][..index] + v[..n][index + 1..]
  {
  }

  // ---------- the array ----------

  class RingArray<T(0, !new)> {
    var numChunks: nat
    var numElements: nat
    var capacity: nat
    var startPos: nat
    var elements: array<array<T>>
    ghost var Repr: set<object>

    ghost predicate Valid()
      reads this, Repr
      ensures Valid() ==> this in Repr && numElements <= capacity
    {
      && this in Repr && elements in Repr
      && elements.Length == numChunks >= 1
      && capacity == Rows(numChunks)
      && startPos < capacity && numElements <= capacity
      && (forall i | 0 <= i < numChunks ::
            elements[i] in Repr && elements[i].Length == CHUNK_SIZE && elements[i] as object != elements)
      && (forall i, j | 0 <= i < j < numChunks :: elements[i] != elements[j])
    }

    ghost function Chunks(): (chunks: seq<seq<T>>)
      requires Valid()
      reads this, Repr
      ensures Regular(chunks) && |chunks| == numChunks
    {
      seq(numChunks, i requires 0 <= i < numChunks && Valid() reads this, Repr => elements[i][..])
    }

    /** The elements in order. */
    ghost function Contents(): (s: seq<T>)
      requires Valid()
      reads this, Repr
      ensures |s| == numElements
    {
      Unrolled(Chunks(), startPos, numElements)
    }

    constructor ()
      ensures Valid() && fresh(Repr)
      ensures Contents() == []
    {
      var chunk := new T[CHUNK_SIZE];
      var table := new array<T>[1](_ => chunk);
      numChunks, numElements, startPos := 1, 0, 0;
      capacity := CHUNK_SIZE;
      elements := table;
      Repr := {this, table, chunk};
    }

    function Offset(index: nat): (p: nat)
      requires Valid() && index <= capacity
      reads this, Repr
      ensures p == Wrap(index, startPos, capacity)
    {
      WrapIs(index, startPos, capacity);
      (index + startPos) % capacity
    }

    function Row(index: nat): (r: nat)
      requires Valid() && index <= capacity
      reads this, Repr
      ensures r == ChunkOf(Wrap(index, startPos, capacity)) < numChunks
    {
      ChunkOfIs(Offset(index));
      SlotBelow(Offset(index), numChunks);
      Offset(index) / CHUNK_SIZE
    }

    function Col(index: nat): (c: nat)
      requires Valid() && index <= capacity
      reads this, Repr
      ensures c == PosOf(Wrap(index, startPos, capacity))
    {
      ChunkOfIs(Offset(index));
      Offset(index) % CHUNK_SIZE
    }

    /** All slots of the ring, from the start on; the first `numElements` hold the elements. */
    ghost function View(): (s: seq<T>)
      requires Valid()
      reads this, Repr
      ensures |s| == capacity && s[..numElements] == Contents()
    {
      Unrolled(Chunks(), startPos, capacity)
    }

    /** Reads the slot of an index; one past the last slot is the first again. */
    method Get(index: nat) returns (e: T)
      requires Valid() && index <= capacity
      ensures e == if index < capacity then View()[index] else View()[0]
      ensures index < numElements ==> e == Contents()[index]
    {
      hide Rows, ChunkOf, PosOf;
      e := elements[Row(index)][Col(index)];
    }

    /** Writes the slot of an index. */
    method Write(index: nat, e: T)
      requires Valid() && index < capacity
      modifies Repr
      ensures Valid() && Repr == old(Repr)
      ensures capacity == old(capacity) && startPos == old(startPos) && numElements == old(numElements)
      ensures View() == old(View())[index := e]
    {
      hide Rows, ChunkOf, PosOf;
      UnrolledUpdate(Chunks(), startPos, capacity, index, e);
      ghost var chunks' := SetAt(Chunks(), Wrap(index, startPos, capacity), e);
      elements[Row(index)][Col(index)] := e;
      assert Chunks() == chunks';
    }

    /** Changes how many of the slots count as elements. */
    method Resize(n: nat)
      requires Valid() && n <= capacity
      modifies this`numElements
      ensures Valid() && numElements == n && View() == old(View()) && Contents() == View()[..n]
    {
      hide Rows, ChunkOf, PosOf;
      ghost var chunks := Chunks();
      numElements := n;
      assert Chunks() == chunks;
    }

    static twostate predicate FreshChunks(new added: seq<array<T>>, new table: array<array<T>>) {
      && (forall k | 0 <= k < |added| ::
            fresh(added[k]) && added[k].Length == CHUNK_SIZE && added[k] as object != table)
      && (forall k, l | 0 <= k < l < |added| :: added[k] != added[l])
    }

    /**
     The table of a grown ring: the old chunks, starting with the one that
     holds the start, then new ones, the first of which is a copy of the start's.
     */
    static method GrownTable(elements: array<array<T>>, first: nat, newNumChunks: nat)
      returns (table: array<array<T>>, ghost added: seq<array<T>>)
      requires first < elements.Length < newNumChunks
      requires forall k | 0 <= k < elements.Length :: elements[k].Length == CHUNK_SIZE
      ensures fresh(table) && table.Length == newNumChunks && |added| == newNumChunks - elements.Length
      ensures forall k | 0 <= k < elements.Length :: table[k] == elements[Wrap(k, first, elements.Length)]
      ensures forall k | elements.Length <= k < newNumChunks :: table[k] == added[k - elements.Length]
      ensures FreshChunks(added, table)
      ensures added[0][..] == elements[first][..]
    {
      hide Rows, ChunkOf, PosOf;
      var numChunks := elements.Length;
      var filler := elements[0];
      table := new array<T>[newNumChunks](_ => filler);
      added := [];
      for i := 0 to numChunks
        invariant forall k | 0 <= k < i :: table[k] == elements[Wrap(k, first, numChunks)]
      {
        WrapIs(i, first, numChunks);
        table[i] := elements[(first + i) % numChunks];
      }
      for i := numChunks to newNumChunks
        invariant forall k | 0 <= k < numChunks :: table[k] == elements[Wrap(k, first, numChunks)]
        invariant |added| == i - numChunks
        invariant forall k | numChunks <= k < i :: table[k] == added[k - numChunks]
        invariant FreshChunks(added, table)
      {
        var chunk := new T[CHUNK_SIZE];
        table[i] := chunk;
        added := added + [chunk];
      }
      CopyChunk(elements[first], table[numChunks]);
    }

    static method CopyChunk(from: array<T>, to: array<T>)
      requires from != to && from.Length == to.Length == CHUNK_SIZE
      modifies to
      ensures to[..] == from[..]
    {
      for c := 0 to CHUNK_SIZE
        invariant to[..c] == from[..c]
      {
        to[c] := from[c];
      }
    }

    /** Growing moves every element but keeps the contents, even when the elements wrap around. */
    method GrowToFit(wanted: nat)
      requires Valid()
      modifies Repr
      ensures Valid() && fresh(Repr - old(Repr)) && old(Repr) <= Repr
      ensures wanted <= capacity && numElements == old(numElements)
      ensures Contents() == old(Contents())
    {
      hide Rows, ChunkOf, PosOf;
      if wanted <= capacity {
        return;
      }
      var newNumChunks := wanted * 2 / CHUNK_SIZE + 1;
      // There are more chunks than before, so the source's second early return is never taken.
      EnoughChunks(wanted, numChunks);
      var table, added := GrownTable(elements, Row(0), newNumChunks);
      Adopt(table, added);
    }

    /** Switches to a grown table; the start moves into its first chunk. */
    method Adopt(table: array<array<T>>, ghost added: seq<array<T>>)
      requires Valid() && table !in Repr && numChunks < table.Length == numChunks + |added|
      requires forall k | 0 <= k < numChunks :: table[k] == elements[Wrap(k, Row(0), numChunks)]
      requires forall k | numChunks <= k < table.Length :: table[k] == added[k - numChunks]
      requires forall k | 0 <= k < |added| ::
                 added[k] !in Repr && added[k].Length == CHUNK_SIZE && added[k] as object != table
      requires forall k, l | 0 <= k < l < |added| :: added[k] != added[l]
      requires added[0][..] == elements[Row(0)][..]
      modifies this
      ensures Valid() && Repr == old(Repr) + {table} + set k | 0 <= k < |added| :: added[k]
      ensures capacity == Rows(table.Length) && numElements == old(numElements)
      ensures Contents() == old(Contents())
    {
      hide Rows, ChunkOf, PosOf;
      ghost var was, before, start := elements, Chunks(), startPos;
      ghost var n := numChunks;
      forall i, j | 0 <= i < j < n ensures table[i] != table[j] {
        assert Wrap(i, Row(0), n) != Wrap(j, Row(0), n);
      }
      ChunkOfIs(startPos);
      RowsIs(table.Length);
      RowsMonotone(n, table.Length);
      elements := table;
      capacity := CHUNK_SIZE * table.Length;
      numChunks := table.Length;
      startPos := startPos % CHUNK_SIZE;
      Repr := Repr + {table} + set k | 0 <= k < |added| :: added[k];
      SlotBelow(start, n);
      Adopted(before, start);
    }

    /** The table holds the chunks of the one before, from the first in use, and that one again after the last. */
    lemma Adopted(before: seq<seq<T>>, start: nat)
      requires Valid() && Regular(before) && |before| < numChunks
      requires start < Rows(|before|) && numElements <= Rows(|before|) && startPos == PosOf(start)
      requires ChunkOf(start) < |before|
      requires forall k | 0 <= k <= |before| :: elements[k][..] == before[Wrap(k, ChunkOf(start), |before|)]
      ensures Contents() == Unrolled(before, start, numElements)
    {
      hide Rows, ChunkOf, PosOf, Unrolled;
      forall k | 0 <= k <= |before| ensures Chunks()[k] == before[Wrap(k, ChunkOf(start), |before|)] {
        assert Chunks()[k] == elements[k][..];
      }
      GrowthKeeps(before, Chunks(), start, numElements);
    }

    /** Moves the elements from `index` on up by one slot. */
    method ShiftUp(index: nat)
      requires Valid() && index <= numElements < capacity
      modifies Repr
      ensures Valid() && Repr == old(Repr)
      ensures capacity == old(capacity) && startPos == old(startPos) && numElements == old(numElements)
      ensures forall j | 0 <= j < index :: View()[j] == old(View())[j]
      ensures forall j | index < j <= numElements :: View()[j] == old(View())[j - 1]
    {
      hide *;
      var i := numElements;
      ghost var v0 := View();
      while i > index
        invariant Valid() && Repr == old(Repr)
        invariant capacity == old(capacity) && startPos == old(startPos) && numElements == old(numElements)
        invariant index <= i <= numElements
        invariant forall j | 0 <= j < i :: View()[j] == v0[j]
        invariant forall j | i < j <= numElements :: View()[j] == v0[j - 1]
      {
        var prev := Get(i - 1);
        Write(i, prev);
        i := i - 1;
      }
    }

    /** Inserts before position `index`; what follows moves up by one. */
    method Add(index: nat, e: T)
      requires Valid() && index <= numElements
      modifies Repr
      ensures Valid() && fresh(Repr - old(Repr))
      ensures Contents() == old(Contents()[..index] + [e] + Contents()[index..])
    {
      hide *;
      ghost var before := Contents();
      GrowToFit(numElements + 1);
      ghost var v := View();
      assert before == v[..numElements];
      ShiftUp(index);
      Write(index, e);
      ghost var v' := View();
      Resize(numElements + 1);
      assert v'[..numElements] == before[..index] + [e] + before[index..];
    }

    method PushBack(e: T)
      requires Valid()
      modifies Repr
      ensures Valid() && fresh(Repr - old(Repr))
      ensures Contents() == old(Contents()) + [e]
    {
      Add(numElements, e);
    }

    /** Copies the elements of `c` into the slots after the last element. */
    method CopyFrom(c: RingArray<T>)
      requires Valid() && c.Valid() && (c == this || c.Repr !! Repr)
      requires numElements + c.numElements <= capacity
      modifies Repr
      ensures Valid() && Repr == old(Repr)
      ensures capacity == old(capacity) && startPos == old(startPos) && numElements == old(numElements)
      ensures View()[..numElements + old(c.numElements)] == old(Contents()) + old(c.Contents())
    {
      hide *;
      var len := c.numElements;
      ghost var more, v0, n := c.Contents(), View(), numElements;
      for i := 0 to len
        invariant Valid() && Repr == old(Repr)
        invariant capacity == old(capacity) && startPos == old(startPos) && numElements == n
        invariant c != this ==> c.Valid() && c.numElements == len && c.Contents() == more
        invariant forall j | 0 <= j < n :: View()[j] == v0[j]
        invariant forall j | 0 <= j < i :: View()[n + j] == more[j]
      {
        var e := c.Get(i);
        assert e == more[i];
        Write(numElements + i, e);
      }
      AllAppended(v0, View(), v0[..n], more);
    }

    /** Appends another array, or this one to itself. */
    method Concat(c: RingArray<T>)
      requires Valid() && c.Valid() && (c == this || c.Repr !! Repr)
      modifies Repr
      ensures Valid() && fresh(Repr - old(Repr))
      ensures Contents() == old(Contents()) + old(c.Contents())
    {
      hide *;
      var len := c.numElements;
      ghost var own, more := Contents(), c.Contents();
      GrowToFit(numElements + len);
      assert Contents() == own && c.Contents() == more;
      CopyFrom(c);
      Resize(numElements + len);
    }

    method Clear()
      requires Valid()
      modifies this
      ensures Valid() && Repr == old(Repr) && Contents() == []
    {
      Resize(0);
    }

    /** Moves the elements after `index` down by one slot. */
    method ShiftDown(index: nat)
      requires Valid() && index < numElements
      modifies Repr
      ensures Valid() && Repr == old(Repr)
      ensures capacity == old(capacity) && startPos == old(startPos) && numElements == old(numElements)
      ensures forall j | 0 <= j < index :: View()[j] == old(View())[j]
      ensures forall j | index <= j < numElements - 1 :: View()[j] == old(View())[j + 1]
    {
      hide *;
      ghost var v0 := View();
      for i := index to numElements
        invariant Valid() && Repr == old(Repr)
        invariant capacity == old(capacity) && startPos == old(startPos) && numElements == old(numElements)
        invariant forall j | 0 <= j < index :: View()[j] == v0[j]
        invariant forall j | index <= j < i && j < numElements - 1 :: View()[j] == v0[j + 1]
        invariant forall j | i <= j < numElements :: View()[j] == v0[j]
      {
        ghost var v := View();
        var next := Get(i + 1);
        Write(i, next);
        assert View() == v[i := next];
      }
    }

    method Remove(index: nat) returns (e: T)
      requires Valid() && index < numElements
      modifies Repr
      ensures Valid() && Repr == old(Repr)
      ensures e == old(Contents()[index])
      ensures Contents() == old(Contents()[..index] + Contents()[index + 1..])
    {
      hide *;
      e := Get(index);
      ghost var v, n := View(), numElements;
      ShiftDown(index);
      Resize(numElements - 1);
      OneRemoved(v, View(), n, index);
    }

    method Set(index: nat, e: T) returns (was: T)
      requires Valid() && index < numElements
      modifies Repr
      ensures Valid() && Repr == old(Repr)
      ensures was == old(Contents()[index]) && Contents() == old(Contents())[index := e]
    {
      hide Rows, ChunkOf, PosOf;
      was := Get(index);
      Write(index, e);
    }

    method Size() returns (n: nat)
      requires Valid()
      ensures n == |Contents()|
    {
      n := numElements;
    }
  }

  /** A queue pushes at the back of the array and pops by moving its start. */
  class Queue<T(0, !new)> {
    const ring: RingArray<T>

    ghost predicate Valid()
      reads this, ring, ring.Repr
    {
      ring.Valid()
    }

    constructor ()
      ensures Valid() && fresh(ring) && fresh(ring.Repr)
      ensures ring.Contents() == []
    {
      ring := new RingArray<T>();
    }

    method Push(e: T)
      requires Valid()
      modifies ring.Repr
      ensures Valid() && fresh(ring.Repr - old(ring.Repr))
      ensures ring.Contents() == old(ring.Contents()) + [e]
    {
      hide Rows, ChunkOf, PosOf;
      ring.PushBack(e);
    }

    method Peek() returns (e: T)
      requires Valid() && ring.Contents() != []
      ensures e == ring.Contents()[0]
    {
      hide Rows, ChunkOf, PosOf;
      e := ring.Get(0);
    }

    method Pop() returns (e: T)
      requires Valid() && ring.Contents() != []
      modifies ring
      ensures Valid() && ring.Repr == old(ring.Repr)
      ensures [e] + ring.Contents() == old(ring.Contents())
    {
      hide Rows, ChunkOf, PosOf;
      e := Peek();
      UnrolledRest(ring.Chunks(), ring.startPos, ring.numElements);
      RowsMonotone(0, ring.numChunks);
      ghost var rest := ring.Contents()[1..];
      ghost var chunks := ring.Chunks();
      ring.startPos := ring.Offset(1);
      ring.numElements := ring.numElements - 1;
      assert ring.Chunks() == chunks;
      assert ring.Contents() == rest;
    }
  }
}
