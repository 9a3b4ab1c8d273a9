/** The bit sets of the collaborator search and how they travel as frames. */
module LinusSets {
  import opened Params
  import opened Messages
  import opened Wire
  import opened Layout
  import opened Frames

  /** A set of the numbers below its capacity; anything else is ignored. */
  class BitSet {
    const vals: array<bool>
    var elems: nat

    ghost function View(): (v: set<int>)
      reads this, vals
      ensures forall i <- v :: 0 <= i < vals.Length
    {
      set i | 0 <= i < vals.Length && vals[i]
    }

    ghost predicate Valid()
      reads this, vals
    {
      elems == |View()|
    }

    constructor (sz: nat)
      ensures Valid() && fresh(vals) && vals.Length == sz && View() == {}
    {
      vals := new bool[sz](_ => false);
      elems := 0;
    }

    method Set(idx: int)
      requires Valid()
      modifies this, vals
      ensures Valid()
      ensures View() == old(View()) + if 0 <= idx < vals.Length then {idx} else {}
    {
      if !(0 <= idx < vals.Length) || vals[idx] {
        return;
      }
      vals[idx] := true;
      elems := elems + 1;
      assert View() == old(View()) + {idx};
    }

    predicate Test(idx: int)
      reads this, vals
      ensures Test(idx) <==> idx in View()
    {
      0 <= idx < vals.Length && vals[idx]
    }

    function Size(): (n: nat)
      requires Valid()
      reads this, vals
      ensures n == |View()|
    {
      elems
    }

    method Union(from: BitSet)
      requires Valid() && from.Valid() && from.vals != vals && from != this
      modifies this, vals
      ensures Valid() && View() == old(View()) + Below(from.View(), vals.Length)
    {
      hide View, Valid, Below;
      ghost var theirs := from.View();
      BelowNothing(theirs);
      for i := 0 to from.vals.Length
        invariant Valid() && from.View() == theirs
        invariant View() == old(View()) + Below(Below(theirs, i), vals.Length)
      {
        BelowNext(theirs, i, vals.Length);
        if from.Test(i) {
          Set(i);
        }
      }
      BelowAll(theirs, from.vals.Length);
    }
  }

  /** The numbers of `s` below a bound. */
  function Below(s: set<int>, n: nat): set<int> {
    set i | i in s && 0 <= i < n
  }

  lemma BelowNothing(s: set<int>)
    ensures Below(s, 0) == {} && forall n: nat :: Below({}, n) == {}
  {
  }

  lemma BelowNext(s: set<int>, i: nat, n: nat)
    ensures Below(Below(s, i + 1), n) == Below(Below(s, i), n) + if i in s && i < n then {i} else {}
  {
  }

  lemma BelowAll(s: set<int>, n: nat)
    requires forall i <- s :: 0 <= i < n
    ensures Below(s, n) == s
  {
  }

  /** The rows of a set's frame: its elements in ascending order. */
  function Listed(vals: seq<bool>): seq<Row> {
    if vals == [] then []
    else
      var n := |vals| - 1;
      Listed(vals[..n]) + if vals[n] then [[Int(n)]] else []
  }

  lemma {:induction false} ListedAre(vals: seq<bool>, r: Row)
    ensures r in Listed(vals) <==> exists i | 0 <= i < |vals| :: vals[i] && r == [Int(i)]
  {
    if vals != [] {
      ListedAre(vals[..|vals| - 1], r);
    }
  }

  lemma {:induction false} ListedFits(vals: seq<bool>)
    requires |vals| <= INT_LIMIT
    ensures |Listed(vals)| <= |vals| && FrameFits("I", Listed(vals)) && AllInts(Listed(vals))
  {
    if vals != [] {
      ListedFits(vals[..|vals| - 1]);
    }
  }

  /** Walks over a set, skipping what is not in it. */
  class SetWriter {
    const set_: BitSet
    var idx: nat

    constructor (s: BitSet)
      ensures set_ == s && idx == 0
    {
      set_, idx := s, 0;
    }

    method Done() returns (done: bool)
      requires idx <= set_.vals.Length
      modifies this
      ensures old(idx) <= idx <= set_.vals.Length && done == (idx == set_.vals.Length)
      ensures !done ==> set_.vals[idx]
      ensures Listed(set_.vals[..idx]) == Listed(set_.vals[..old(idx)])
    {
      while idx < set_.vals.Length && !set_.Test(idx)
        invariant old(idx) <= idx <= set_.vals.Length
        invariant Listed(set_.vals[..idx]) == Listed(set_.vals[..old(idx)])
      {
        assert set_.vals[..idx + 1][..idx] == set_.vals[..idx];
        idx := idx + 1;
      }
      done := idx >= set_.vals.Length;
    }

    method Accept() returns (r: Row)
      requires idx < set_.vals.Length && set_.vals[idx]
      modifies this
      ensures idx == old(idx) + 1
      ensures Listed(set_.vals[..idx]) == Listed(set_.vals[..old(idx)]) + [r]
    {
      assert set_.vals[..idx + 1][..idx] == set_.vals[..idx];
      r := [Int(idx)];
      idx := idx + 1;
    }

    /** The rows a loader gets from this writer. */
    method Drain() returns (rows: seq<Row>)
      requires idx == 0
      modifies this
      ensures rows == Listed(set_.vals[..])
    {
      rows := [];
      var done := Done();
      while !done
        invariant idx <= set_.vals.Length && done == (idx == set_.vals.Length)
        invariant !done ==> set_.vals[idx]
        invariant rows == Listed(set_.vals[..idx])
        decreases set_.vals.Length - idx
      {
        var r := Accept();
        rows := rows + [r];
        done := Done();
      }
      assert set_.vals[..idx] == set_.vals[..];
    }
  }

  /** The numbers in the first column of a frame. */
  function Numbers(rows: seq<Row>): set<int> {
    set i | 0 <= i < |rows| && rows[i] != [] && rows[i][0].Int? :: rows[i][0].i
  }

  lemma ListedNumbers(s: BitSet)
    ensures Numbers(Listed(s.vals[..])) == s.View()
  {
    var rows := Listed(s.vals[..]);
    forall n ensures n in Numbers(rows) <==> n in s.View() {
      if n in Numbers(rows) {
        var i :| 0 <= i < |rows| && rows[i] != [] && rows[i][0].Int? && rows[i][0].i == n;
        ListedAre(s.vals[..], rows[i]);
      }
      if n in s.View() {
        ListedAre(s.vals[..], [Int(n)]);
        var i :| 0 <= i < |rows| && rows[i] == [Int(n)];
      }
    }
  }

  /** A frame of one column of numbers, none of them missing. */
  predicate AllInts(rows: seq<Row>) {
    forall i | 0 <= i < |rows| :: |rows[i]| == 1 && rows[i][0].Int?
  }

  /** Publishes a set under a key. */
  method PublishSet(k: Key, kv: Stores, s: BitSet, me: nat) returns (ghost rows: seq<Row>)
    requires s.Valid() && s.vals.Length <= INT_LIMIT
    modifies kv
    ensures FrameFits("I", rows) && AllInts(rows) && Numbers(rows) == s.View()
    ensures kv.entries == Stored(old(kv.entries), Publication(k, "I", rows, NumChunks(|rows|)))
    ensures Holds(kv.entries, k, "I", rows)
  {
    hide FrameFits, Holds, Publication, NumChunks, Stored, Listed, Numbers;
    var writer := new SetWriter(s);
    var list := writer.Drain();
    ListedFits(s.vals[..]);
    ListedNumbers(s);
    var w := new RowWriter(list);
    var _ := DataFrame.FromVisitor(k, kv, "I", w, me);
    rows := list;
  }

  /** Fetches a published set and adds what it holds. */
  method ReceiveSet(k: Key, kv: Stores, s: BitSet, me: nat, ghost rows: seq<Row>)
    requires s.Valid() && FrameFits("I", rows) && Holds(kv.entries, k, "I", rows)
    requires AllInts(rows)
    modifies s, s.vals
    ensures s.Valid()
    ensures s.View() == old(s.View()) + Below(Numbers(rows), s.vals.Length)
  {
    hide FrameFits, Holds, NumChunks, Visits;
    var df := new DataFrame.FromStore(k, kv, me, rows, "I");
    var visits := df.DistributedMap(kv, rows);
    VisitsAll(rows);
    UpdateAll(visits, s, rows);
  }

  lemma VisitsAll(rows: seq<Row>)
    ensures InRange(rows, UpTo(|rows|)) && |Visits(rows, UpTo(|rows|))| == |rows|
    ensures forall i | 0 <= i < |rows| :: Visits(rows, UpTo(|rows|))[i] == (i, rows[i])
  {
  }

  /** Sets the number in the first column of each row a map visits. */
  method UpdateAll(visits: seq<(nat, Row)>, s: BitSet, ghost rows: seq<Row>)
    requires s.Valid() && AllInts(rows)
    requires |visits| == |rows| && forall i | 0 <= i < |rows| :: visits[i] == (i, rows[i])
    modifies s, s.vals
    ensures s.Valid()
    ensures s.View() == old(s.View()) + Below(Numbers(rows), s.vals.Length)
  {
    hide BitSet.View, BitSet.Valid, Numbers, Below;
    NoNumbers();
    BelowNothing({});
    for i := 0 to |visits|
      invariant s.Valid()
      invariant s.View() == old(s.View()) + Below(Numbers(rows[..i]), s.vals.Length)
    {
      NumbersMore(rows, i);
      BelowMore(Numbers(rows[..i]), rows[i][0].i, s.vals.Length);
      s.Set(visits[i].1[0].i);
    }
    assert rows[..|rows|] == rows;
  }

  lemma NoNumbers()
    ensures forall rows: seq<Row> :: Numbers(rows[..0]) == {}
  {
  }

  lemma BelowMore(s: set<int>, i: int, n: nat)
    ensures Below(s + {i}, n) == Below(s, n) + if 0 <= i < n then {i} else {}
  {
  }

  lemma NumbersMore(rows: seq<Row>, i: nat)
    requires i < |rows| && rows[i] != [] && rows[i][0].Int?
    ensures Numbers(rows[..i + 1]) == Numbers(rows[..i]) + {rows[i][0].i}
  {
    forall n ensures n in Numbers(rows[..i + 1]) <==> n in Numbers(rows[..i]) + {rows[i][0].i} {
      if n in Numbers(rows[..i]) {
        var h :| 0 <= h < i && rows[..i][h] != [] && rows[..i][h][0].Int? && rows[..i][h][0].i == n;
        assert rows[..i + 1][h] == rows[..i][h];
      }
      if n == rows[i][0].i {
        assert rows[..i + 1][i] == rows[i];
      }
    }
  }
}
