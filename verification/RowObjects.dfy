/**
 The row object that a map hands to its visitor. One object serves all rows of
 a pass: filling in a missing value only sets a mark, so the value before it
 stays readable behind the mark.
 */
module RowObjects {
  import opened Messages
  import opened Layout

  /** What a visitor can read: the index of the row, the values, and the marks. */
  datatype View = View(idx: nat, vals: Row, missing: seq<bool>)

  /** What a fresh row object holds in a column; a column of strings holds none. */
  function Dummy(typ: char): Cell {
    if typ == 'B' then Bool(false)
    else if typ == 'I' then Int(0)
    else if typ == 'F' then Float("\0\0\0\0")
    else Missing
  }

  /** The values in the row object after the rows went through it. */
  function Held(types: seq<char>, rows: seq<Row>): (vals: Row)
    requires Rectangular(types, rows)
    ensures |vals| == |types|
  {
    if rows == [] then seq(|types|, j requires 0 <= j < |types| => Dummy(types[j]))
    else Over(Held(types, rows[..|rows| - 1]), rows[|rows| - 1])
  }

  /** A row filled in over older values. */
  function Over(old_: Row, r: Row): (vals: Row)
    requires |old_| == |r|
    ensures |vals| == |r|
  {
    seq(|r|, j requires 0 <= j < |r| => if r[j].Missing? then old_[j] else r[j])
  }

  function Marks(r: Row): (missing: seq<bool>)
    ensures |missing| == |r|
  {
    seq(|r|, j requires 0 <= j < |r| => r[j].Missing?)
  }

  /** The values shown for each row of a pass. */
  function HeldRows(types: seq<char>, rows: seq<Row>): (shown: seq<Row>)
    requires Rectangular(types, rows)
    ensures |shown| == |rows|
  {
    seq(|rows|, i requires 0 <= i < |rows| => Held(types, rows[..i + 1]))
  }

  /** All that a visitor is shown in a pass over rows that begin at index `start`. */
  function Pass(types: seq<char>, rows: seq<Row>, start: nat): (views: seq<View>)
    requires Rectangular(types, rows)
    ensures |views| == |rows|
  {
    seq(|rows|, i requires 0 <= i < |rows| => View(start + i, Held(types, rows[..i + 1]), Marks(rows[i])))
  }

  lemma HeldNext(types: seq<char>, rows: seq<Row>, i: nat)
    requires Rectangular(types, rows) && i < |rows|
    ensures Held(types, rows[..i + 1]) == Over(Held(types, rows[..i]), rows[i])
  {
    assert rows[..i + 1][..i] == rows[..i];
  }

  /** Below `i` the last row that has a value in column `j` is row `h`. */
  ghost predicate LastValue(rows: seq<Row>, j: nat, h: nat, i: nat) {
    && h < i <= |rows| && j < |rows[h]| && !rows[h][j].Missing?
    && forall m | h < m < i :: j < |rows[m]| && rows[m][j].Missing?
  }

  /** The row object holds, in every column, the last value there was, or what a fresh one holds. */
  lemma {:induction false} HeldIsLatest(types: seq<char>, rows: seq<Row>, j: nat)
    requires Rectangular(types, rows) && j < |types|
    ensures (forall h | 0 <= h < |rows| :: rows[h][j].Missing?) ==> Held(types, rows)[j] == Dummy(types[j])
    ensures forall h: nat | LastValue(rows, j, h, |rows|) :: Held(types, rows)[j] == rows[h][j]
  {
    if rows != [] {
      var before, last := rows[..|rows| - 1], |rows| - 1;
      HeldIsLatest(types, before, j);
      forall h: nat | LastValue(rows, j, h, |rows|) ensures Held(types, rows)[j] == rows[h][j] {
        if h < last {
          assert LastValue(before, j, h, last);
        }
      }
    }
  }

  /**
   A visitor is shown the index of the row, a mark for each missing value,
   and the value of each column that is there; behind a mark stands the last
   value that was, or a fresh row's.
   */
  lemma PassShows(types: seq<char>, rows: seq<Row>, start: nat, i: nat, j: nat)
    requires Rectangular(types, rows) && i < |rows| && j < |types|
    ensures var view := Pass(types, rows, start)[i];
            && view.idx == start + i
            && |view.vals| == |view.missing| == |types|
            && (view.missing[j] <==> rows[i][j] == Missing)
            && (rows[i][j] != Missing ==> view.vals[j] == rows[i][j])
            && (forall h: nat | LastValue(rows, j, h, i + 1) :: view.vals[j] == rows[h][j])
            && ((forall h | 0 <= h <= i :: rows[h][j].Missing?) ==> view.vals[j] == Dummy(types[j]))
  {
    hide Held;
    HeldIsLatest(types, rows[..i + 1], j);
    var seen := rows[..i + 1];
    forall h: nat | LastValue(rows, j, h, i + 1) ensures Held(types, seen)[j] == rows[h][j] {
      assert LastValue(seen, j, h, i + 1);
    }
    if rows[i][j] != Missing {
      assert LastValue(rows, j, i, i + 1);
    }
  }

  class RowObject {
    const types: seq<char>
    var idx: nat
    var vals: Row
    var missing: seq<bool>

    constructor (types: seq<char>)
      ensures this.types == types && idx == 0
      ensures vals == Held(types, []) && missing == seq(|types|, _ => true)
    {
      this.types, idx := types, 0;
      vals := seq(|types|, j requires 0 <= j < |types| => Dummy(types[j]));
      missing := seq(|types|, _ => true);
    }

    /** Fills in a row cell by cell; a missing value leaves the value before it. */
    method Fill(idx: nat, r: Row)
      requires |r| == |types| == |vals| == |missing|
      modifies this
      ensures this.idx == idx && vals == Over(old(vals), r) && missing == Marks(r)
    {
      this.idx := idx;
      for i := 0 to |types|
        invariant this.idx == idx && |vals| == |missing| == |types|
        invariant forall j | 0 <= j < i :: vals[j] == (if r[j].Missing? then old(vals)[j] else r[j])
        invariant forall j | i <= j < |types| :: vals[j] == old(vals)[j]
        invariant forall j | 0 <= j < i :: missing[j] == r[j].Missing?
      {
        missing := missing[i := r[i].Missing?];
        if !r[i].Missing? {
          vals := vals[i := r[i]];
        }
      }
    }

    function Shows(): View
      reads this
    {
      View(idx, vals, missing)
    }
  }

  // ---------- passes that begin in the middle ----------

  /** No value is missing in the first row of a later pass that an earlier pass would show. */
  predicate CleanAt(types: seq<char>, rows: seq<Row>, c: nat)
    requires Rectangular(types, rows) && c < |rows|
  {
    forall j | 0 <= j < |types| :: rows[c][j].Missing? ==> Held(types, rows[..c])[j] == Dummy(types[j])
  }

  lemma FreshStart(types: seq<char>, rows: seq<Row>, c: nat)
    requires Rectangular(types, rows) && c < |rows|
    ensures CleanAt(types, rows, c) <==> Held(types, rows[c..c + 1]) == Held(types, rows[..c + 1])
  {
    HeldNext(types, rows, c);
    var one := rows[c..c + 1];
    assert one[..|one| - 1] == [] && one[|one| - 1] == rows[c];
    assert Held(types, one) == Over(Held(types, []), rows[c]);
    var fresh_, on := Held(types, rows[c..c + 1]), Held(types, rows[..c + 1]);
    assert forall j | 0 <= j < |types| :: fresh_[j] == if rows[c][j].Missing? then Dummy(types[j]) else rows[c][j];
    assert forall j | 0 <= j < |types| :: on[j] == if rows[c][j].Missing? then Held(types, rows[..c])[j] else rows[c][j];
  }

  /** A pass that begins at a clean row shows what the longer pass shows. */
  lemma {:induction false} CleanStart(types: seq<char>, rows: seq<Row>, c: nat, p: nat)
    requires Rectangular(types, rows) && c <= p < |rows| && CleanAt(types, rows, c)
    ensures Held(types, rows[c..p + 1]) == Held(types, rows[..p + 1])
  {
    if p == c {
      FreshStart(types, rows, c);
    } else {
      CleanStart(types, rows, c, p - 1);
      HeldNext(types, rows, p);
      assert rows[c..p + 1][..p - c] == rows[c..p];
    }
  }
}
