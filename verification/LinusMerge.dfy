/**
 The exchange of changes: every node publishes its set, node 0 gathers and
 publishes the union, and every other node adds the union to its own set.
 */
module LinusMerge {
  import opened Params
  import opened Messages
  import opened Text
  import opened Wire
  import opened Layout
  import opened Placement
  import opened Frames
  import opened LinusSets
  import opened LinusSpec

  // ---------- the names of the exchanged frames ----------

  function DeltaName(name: string, stage: nat, node: nat): string {
    name + Decimal(stage) + "-" + Decimal(node)
  }

  function DeltaKey(name: string, stage: nat, node: nat): Key {
    Key(DeltaName(name, stage, node), node)
  }

  method BuildDeltaKey(name: string, stage: nat, node: nat) returns (k: Key)
    requires '\0' !in name
    ensures k == DeltaKey(name, stage, node)
  {
    hide CStr, Decimal;
    var dash := "-";
    assert '\0' !in dash;
    var sb := new StrBuff();
    sb.C(name);
    assert sb.Contents() == name;
    sb.CNum(stage);
    sb.C(dash);
    assert sb.Contents() == name + Decimal(stage) + dash;
    sb.CNum(node);
    var text := sb.Get();
    k := Key(text, node);
  }

  /** A name such as "comts": no NUL, and not a digit at its end. */
  predicate IsPlain(name: string) {
    name != [] && !IsDigit(name[|name| - 1]) && '\0' !in name
  }

  /** What a node exchanges lies on that node, the schema and the first chunk, under a name with stage and node. */
  lemma DeltaStaysHome(name: string, stage: nat, node: nat)
    requires node < NUM_NODES
    ensures DeltaKey(name, stage, node).node == node == HomeOf(DeltaKey(name, stage, node), 0)
    ensures DeltaName("users-", 1, 0) == "users-1-0"
  {
    HomesGoRound(DeltaKey(name, stage, node), 0);
    assert Decimal(1) == "1" && Decimal(0) == "0";
  }

  lemma DeltaNamesDiffer(name: string, stage: nat, i: nat, stage': nat, i': nat)
    requires IsPlain(name) && (stage, i) != (stage', i')
    ensures DeltaName(name, stage, i) != DeltaName(name, stage', i')
  {
    hide Decimal;
    if DeltaName(name, stage, i) == DeltaName(name, stage', i') {
      DigitTail(name + Decimal(stage) + "-", Decimal(i), name + Decimal(stage') + "-", Decimal(i'));
      SameTail(name + Decimal(stage), name + Decimal(stage'), "-");
      DigitTail(name, Decimal(stage), name, Decimal(stage'));
      DecimalRoundTrip(stage);
      DecimalRoundTrip(stage');
      DecimalRoundTrip(i);
      DecimalRoundTrip(i');
    }
  }

  lemma DeltaIsNoChunk(name: string, stage: nat, i: nat, other: string, col: nat, chunk: nat)
    ensures DeltaName(name, stage, i) != ChunkName(other, col, chunk)
  {
    hide Decimal, CStr;
    var a, b := name + Decimal(stage) + "-", CStr(other) + "-column" + Decimal(col) + "-chunk";
    assert a[|a| - 1] == '-' && b[|b| - 1] == 'k';
    if a + Decimal(i) == b + Decimal(chunk) {
      DigitTail(a, Decimal(i), b, Decimal(chunk));
    }
  }

  lemma PlainIsNeither(plain: string, name: string, stage: nat, i: nat, col: nat, chunk: nat)
    requires IsPlain(plain)
    ensures plain != DeltaName(name, stage, i) && plain != ChunkName(name, col, chunk)
  {
    hide Decimal, CStr;
    var a, b := DeltaName(name, stage, i), ChunkName(name, col, chunk);
    assert a[|a| - 1] == Decimal(i)[|Decimal(i)| - 1] && a[|a| - 1] in Decimal(i);
    assert b[|b| - 1] == Decimal(chunk)[|Decimal(chunk)| - 1] && b[|b| - 1] in Decimal(chunk);
  }

  lemma NoNulInDelta(name: string, stage: nat, i: nat)
    requires IsPlain(name)
    ensures '\0' !in DeltaName(name, stage, i)
  {
    hide Decimal;
    assert '\0' !in Decimal(stage) && '\0' !in Decimal(i) && '\0' !in "-";
  }

  // ---------- frames that survive a publication ----------

  /** The stores hold the frame of a set. */
  ghost predicate HoldsSet(entries: map<Key, Blob>, k: Key, rows: seq<Row>, view: set<int>) {
    FrameFits("I", rows) && AllInts(rows) && Numbers(rows) == view && Holds(entries, k, "I", rows)
  }

  /** Publishing a delta keeps the frame of another delta. */
  lemma DeltaSurvives(entries: map<Key, Blob>, name: string, stage: nat, i: nat, i': nat,
                      rows: seq<Row>, view: set<int>, rows': seq<Row>)
    requires IsPlain(name) && i != i' && FrameFits("I", rows')
    requires HoldsSet(entries, DeltaKey(name, stage, i), rows, view)
    ensures var puts := Publication(DeltaKey(name, stage, i'), "I", rows', NumChunks(|rows'|));
            HoldsSet(Stored(entries, puts), DeltaKey(name, stage, i), rows, view)
  {
    hide Holds, FrameFits, AllInts, Numbers, NumChunks, Publication, DeltaName, Stored, ChunkName, IsPlain;
    DeltaNamesDiffer(name, stage, i, stage, i');
    NoNulInDelta(name, stage, i);
    NoNulInDelta(name, stage, i');
    forall col, chunk
      ensures DeltaName(name, stage, i) != ChunkName(DeltaName(name, stage, i'), col, chunk)
      ensures DeltaName(name, stage, i') != ChunkName(DeltaName(name, stage, i), col, chunk)
    {
      DeltaIsNoChunk(name, stage, i, DeltaName(name, stage, i'), col, chunk);
      DeltaIsNoChunk(name, stage, i', DeltaName(name, stage, i), col, chunk);
    }
    FramesDoNotInterfere(entries, DeltaKey(name, stage, i), "I", rows,
                         DeltaKey(name, stage, i'), "I", rows', NumChunks(|rows'|));
  }

  /** Publishing a delta keeps any frame with a plain name. */
  lemma PlainSurvives(entries: map<Key, Blob>, k: Key, types: seq<char>, rows: seq<Row>,
                      name: string, stage: nat, i: nat, rows': seq<Row>, m: nat)
    requires IsPlain(name) && IsPlain(k.name) && FrameFits(types, rows) && FrameFits("I", rows')
    requires Holds(entries, k, types, rows)
    ensures Holds(Stored(entries, Publication(DeltaKey(name, stage, i), "I", rows', m)), k, types, rows)
  {
    hide Holds, FrameFits, Publication, DeltaName, Stored, ChunkName;
    NoNulInDelta(name, stage, i);
    forall col, chunk
      ensures k.name != ChunkName(DeltaName(name, stage, i), col, chunk)
      ensures DeltaName(name, stage, i) != ChunkName(k.name, col, chunk)
    {
      PlainIsNeither(k.name, DeltaName(name, stage, i), stage, i, col, chunk);
      DeltaIsNoChunk(name, stage, i, k.name, col, chunk);
    }
    PlainIsNeither(k.name, name, stage, i, 0, 0);
    FramesDoNotInterfere(entries, k, types, rows, DeltaKey(name, stage, i), "I", rows', m);
  }

  // ---------- the exchange ----------

  ghost function Objects(sets: seq<BitSet>): set<object> {
    (set i | 0 <= i < |sets| :: sets[i] as object) + set i | 0 <= i < |sets| :: sets[i].vals as object
  }

  /** One set per node, none sharing anything with another. */
  ghost predicate Separate(sets: seq<BitSet>, capacity: nat)
    reads Objects(sets)
  {
    && (forall i | 0 <= i < |sets| :: sets[i].Valid() && sets[i].vals.Length == capacity)
    && (forall i, j | 0 <= i < j < |sets| :: sets[i] != sets[j] && sets[i].vals != sets[j].vals)
  }

  ghost function Views(sets: seq<BitSet>): seq<set<int>>
    reads Objects(sets)
  {
    seq(|sets|, i requires 0 <= i < |sets| reads Objects(sets) => sets[i].View())
  }

  /** Every node but the master publishes its set. */
  method PublishDeltas(name: string, stage: nat, sets: seq<BitSet>, capacity: nat, kv: Stores,
                       ghost d: Data, ghost types: seq<char>) returns (ghost frames: seq<seq<Row>>)
    requires |sets| == NUM_NODES && Separate(sets, capacity) && capacity <= INT_LIMIT
    requires IsPlain(name) && IsPlain(d.key.name)
    requires FrameFits(types, d.rows) && Holds(kv.entries, d.key, types, d.rows)
    modifies kv
    ensures Separate(sets, capacity) && forall i | 0 <= i < NUM_NODES :: sets[i].View() == old(sets[i].View())
    ensures |frames| == NUM_NODES && Holds(kv.entries, d.key, types, d.rows)
    ensures forall j | 1 <= j < NUM_NODES ::
              HoldsSet(kv.entries, DeltaKey(name, stage, j), frames[j], sets[j].View())
  {
    assert '\0' !in name;
    hide Holds, FrameFits, HoldsSet, DeltaKey, IsPlain, Publication, NumChunks, Stored, BitSet.View;
    frames := seq(NUM_NODES, _ => []);
    for i := 1 to NUM_NODES
      invariant |frames| == NUM_NODES && Holds(kv.entries, d.key, types, d.rows)
      invariant forall j | 1 <= j < i ::
                  HoldsSet(kv.entries, DeltaKey(name, stage, j), frames[j], sets[j].View())
    {
      ghost var before := kv.entries;
      var key := BuildDeltaKey(name, stage, i);
      ghost var rows := PublishSet(key, kv, sets[i], i);
      SetHeld(kv.entries, DeltaKey(name, stage, i), rows, sets[i].View());
      PlainSurvives(before, d.key, types, d.rows, name, stage, i, rows, NumChunks(|rows|));
      forall j | 1 <= j < i
        ensures HoldsSet(kv.entries, DeltaKey(name, stage, j), frames[j], sets[j].View())
      {
        DeltaSurvives(before, name, stage, j, i, frames[j], sets[j].View(), rows);
      }
      frames := frames[i := rows];
    }
  }

  lemma SetHeld(entries: map<Key, Blob>, k: Key, rows: seq<Row>, view: set<int>)
    requires FrameFits("I", rows) && AllInts(rows) && Numbers(rows) == view && Holds(entries, k, "I", rows)
    ensures HoldsSet(entries, k, rows, view)
  {
  }

  method ReceiveHeld(k: Key, kv: Stores, s: BitSet, me: nat, ghost rows: seq<Row>, ghost view: set<int>)
    requires s.Valid() && HoldsSet(kv.entries, k, rows, view)
    modifies s, s.vals
    ensures s.Valid() && s.View() == old(s.View()) + Below(view, s.vals.Length)
  {
    hide BitSet.View, BitSet.Valid, Numbers, Holds, FrameFits, Below;
    ReceiveSet(k, kv, s, me, rows);
  }

  /** Node 0 adds what every other node published to its own set. */
  method GatherAtMaster(name: string, stage: nat, sets: seq<BitSet>, capacity: nat, kv: Stores,
                        ghost frames: seq<seq<Row>>, ghost views: seq<set<int>>)
    requires |sets| == |views| == |frames| == NUM_NODES && Separate(sets, capacity) && '\0' !in name
    requires forall i | 0 <= i < NUM_NODES :: sets[i].View() == views[i]
    requires forall j | 1 <= j < NUM_NODES :: HoldsSet(kv.entries, DeltaKey(name, stage, j), frames[j], views[j])
    modifies sets[0], sets[0].vals
    ensures Separate(sets, capacity) && sets[0].View() == UnionOf(views)
  {
    hide HoldsSet, DeltaKey, BitSet.View, BitSet.Valid, Below;
    assert views[..1] == [views[0]] && UnionOf(views[..1]) == UnionOf([]) + views[0] by {
      assert views[..1][..0] == [];
    }
    for i := 1 to NUM_NODES
      invariant Separate(sets, capacity)
      invariant forall h | 1 <= h < NUM_NODES :: sets[h].View() == views[h]
      invariant sets[0].View() == UnionOf(views[..i])
    {
      var key := BuildDeltaKey(name, stage, i);
      assert HoldsSet(kv.entries, DeltaKey(name, stage, i), frames[i], views[i]);
      assert views[i] == sets[i].View();
      BelowAll(views[i], capacity);
      ReceiveHeld(key, kv, sets[0], 0, frames[i], views[i]);
      assert views[..i + 1][..i] == views[..i];
    }
    assert views[..NUM_NODES] == views;
  }

  /** Every other node adds the published union to its own set. */
  method SpreadMerged(name: string, stage: nat, sets: seq<BitSet>, capacity: nat, kv: Stores,
                      ghost frame: seq<Row>, ghost merged: set<int>)
    requires |sets| == NUM_NODES && Separate(sets, capacity) && '\0' !in name
    requires sets[0].View() == merged && forall i | 0 <= i < NUM_NODES :: sets[i].View() <= merged
    requires HoldsSet(kv.entries, DeltaKey(name, stage, 0), frame, merged)
    modifies Objects(sets)
    ensures Separate(sets, capacity) && kv.entries == old(kv.entries)
    ensures forall i | 0 <= i < NUM_NODES :: sets[i].View() == merged
  {
    hide HoldsSet, DeltaKey, BitSet.View, BitSet.Valid, Below;
    for i := 1 to NUM_NODES
      invariant Separate(sets, capacity)
      invariant sets[0].View() == merged && kv.entries == old(kv.entries)
      invariant forall h | 1 <= h < i :: sets[h].View() == merged
      invariant forall h | i <= h < NUM_NODES :: sets[h].View() <= merged
    {
      var key := BuildDeltaKey(name, stage, 0);
      assert sets[i].View() <= merged;
      BelowAll(merged, capacity);
      ReceiveHeld(key, kv, sets[i], i, frame, merged);
    }
  }

  /** After a merge every node's set is the union of what the nodes had. */
  method Merge(name: string, stage: nat, sets: seq<BitSet>, capacity: nat, kv: Stores,
               ghost d: Data, ghost types: seq<char>) returns (ghost frame: seq<Row>)
    requires |sets| == NUM_NODES && Separate(sets, capacity) && capacity <= INT_LIMIT
    requires IsPlain(name) && IsPlain(d.key.name)
    requires FrameFits(types, d.rows) && Holds(kv.entries, d.key, types, d.rows)
    modifies kv, Objects(sets)
    ensures Separate(sets, capacity) && Holds(kv.entries, d.key, types, d.rows)
    ensures forall i | 0 <= i < NUM_NODES :: sets[i].View() == UnionOf(old(Views(sets)))
    ensures HoldsSet(kv.entries, DeltaKey(name, stage, 0), frame, UnionOf(old(Views(sets))))
  {
    assert '\0' !in name;
    hide *;
    ghost var views := Views(sets);
    ViewsAre(sets, capacity);
    PartsOfUnion(views);
    ghost var frames := PublishDeltas(name, stage, sets, capacity, kv, d, types);
    frame := MasterPart(name, stage, sets, capacity, kv, d, types, frames, views);
    SpreadMerged(name, stage, sets, capacity, kv, frame, UnionOf(views));
  }

  /** Node 0 gathers the other nodes' sets and publishes the union. */
  method MasterPart(name: string, stage: nat, sets: seq<BitSet>, capacity: nat, kv: Stores,
                    ghost d: Data, ghost types: seq<char>, ghost frames: seq<seq<Row>>, ghost views: seq<set<int>>)
    returns (ghost frame: seq<Row>)
    requires |sets| == |views| == |frames| == NUM_NODES && Separate(sets, capacity) && capacity <= INT_LIMIT
    requires IsPlain(name) && IsPlain(d.key.name)
    requires FrameFits(types, d.rows) && Holds(kv.entries, d.key, types, d.rows)
    requires forall i | 0 <= i < NUM_NODES :: sets[i].View() == views[i]
    requires forall j | 1 <= j < NUM_NODES :: HoldsSet(kv.entries, DeltaKey(name, stage, j), frames[j], views[j])
    modifies kv, sets[0], sets[0].vals
    ensures Separate(sets, capacity) && Holds(kv.entries, d.key, types, d.rows)
    ensures sets[0].View() == UnionOf(views) && forall i | 1 <= i < NUM_NODES :: sets[i].View() == views[i]
    ensures HoldsSet(kv.entries, DeltaKey(name, stage, 0), frame, UnionOf(views))
  {
    assert '\0' !in name;
    hide Holds, FrameFits, HoldsSet, BitSet.View, BitSet.Valid, UnionOf, IsPlain;
    GatherAtMaster(name, stage, sets, capacity, kv, frames, views);
    frame := PublishMerged(name, stage, sets, capacity, kv, d, types);
  }

  lemma ViewsAre(sets: seq<BitSet>, capacity: nat)
    requires Separate(sets, capacity)
    ensures |Views(sets)| == |sets| && forall i | 0 <= i < |sets| :: Views(sets)[i] == sets[i].View()
    ensures forall i | 0 <= i < |sets| :: sets[i].Valid() && sets[i].vals.Length == capacity
    ensures forall i | 0 <= i < |sets| :: sets[i] in Objects(sets) && sets[i].vals in Objects(sets)
    ensures forall i | 1 <= i < |sets| :: sets[i] != sets[0] && sets[i].vals != sets[0].vals
  {
    hide BitSet.View, BitSet.Valid;
  }

  lemma PartsOfUnion(views: seq<set<int>>)
    ensures forall i | 0 <= i < |views| :: views[i] <= UnionOf(views)
  {
    hide UnionOf;
    forall i, x | 0 <= i < |views| && x in views[i] ensures x in UnionOf(views) {
      UnionOfIs(views, x);
    }
  }

  /** Node 0 publishes what it gathered. */
  method PublishMerged(name: string, stage: nat, sets: seq<BitSet>, capacity: nat, kv: Stores,
                       ghost d: Data, ghost types: seq<char>) returns (ghost frame: seq<Row>)
    requires |sets| == NUM_NODES && Separate(sets, capacity) && capacity <= INT_LIMIT
    requires IsPlain(name) && IsPlain(d.key.name)
    requires FrameFits(types, d.rows) && Holds(kv.entries, d.key, types, d.rows)
    modifies kv
    ensures Separate(sets, capacity) && forall i | 0 <= i < NUM_NODES :: sets[i].View() == old(sets[i].View())
    ensures Holds(kv.entries, d.key, types, d.rows)
    ensures HoldsSet(kv.entries, DeltaKey(name, stage, 0), frame, sets[0].View())
  {
    assert '\0' !in name;
    hide Holds, FrameFits, DeltaKey, BitSet.View, BitSet.Valid, HoldsSet, IsPlain, Publication, NumChunks, Stored;
    var key := BuildDeltaKey(name, stage, 0);
    ghost var before := kv.entries;
    frame := PublishSet(key, kv, sets[0], 0);
    SetHeld(kv.entries, key, frame, sets[0].View());
    PlainSurvives(before, d.key, types, d.rows, name, stage, 0, frame, NumChunks(|frame|));
  }
}
