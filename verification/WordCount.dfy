/** Counting words over a distributed frame: local counts, one frame of counts per node, and the merge at node 0. */
module WordCount {
  import opened Params
  import opened Messages
  import opened Text
  import opened Wire
  import opened Layout
  import opened Frames
  import opened HashMaps
  import opened WordCountSpec

  // ---------- frames of counts ----------

  function CountName(node: nat): string { "wc-map-" + Decimal(node) }

  function CountKey(node: nat): Key { Key(CountName(node), node) }

  function DataKey(): Key { Key("data", 0) }

  method BuildCountKey(node: nat) returns (k: Key)
    ensures k == CountKey(node)
  {
    hide CStr, Decimal;
    var prefix := "wc-map-";
    assert '\0' !in prefix;
    var sb := new StrBuff();
    sb.C(prefix);
    assert sb.Contents() == prefix;
    sb.CNum(node);
    var text := sb.Get();
    k := Key(text, node);
  }

  lemma CountNamesDiffer(i: nat, j: nat)
    requires i != j
    ensures CountName(i) != CountName(j)
  {
    hide Decimal;
    if CountName(i) == CountName(j) {
      DigitTail("wc-map-", Decimal(i), "wc-map-", Decimal(j));
      DecimalRoundTrip(i);
      DecimalRoundTrip(j);
    }
  }

  lemma CountIsNoChunk(i: nat, other: string, col: nat, chunk: nat)
    ensures CountName(i) != ChunkName(other, col, chunk)
  {
    hide Decimal, CStr;
    var a, b := "wc-map-", CStr(other) + "-column" + Decimal(col) + "-chunk";
    assert a[|a| - 1] == '-' && b[|b| - 1] == 'k';
    if a + Decimal(i) == b + Decimal(chunk) {
      DigitTail(a, Decimal(i), b, Decimal(chunk));
    }
  }

  lemma DataIsNeither(i: nat, other: string, col: nat, chunk: nat)
    ensures DataKey().name != CountName(i) && DataKey().name != ChunkName(other, col, chunk)
  {
    hide Decimal, CStr;
    var a, b := CountName(i), ChunkName(other, col, chunk);
    assert a[|a| - 1] == Decimal(i)[|Decimal(i)| - 1] && a[|a| - 1] in Decimal(i);
    assert b[|b| - 1] == Decimal(chunk)[|Decimal(chunk)| - 1] && b[|b| - 1] in Decimal(chunk);
  }

  lemma NoNuls(i: nat)
    ensures '\0' !in CountName(i) && '\0' !in DataKey().name
  {
    hide Decimal;
    assert '\0' !in Decimal(i) && '\0' !in "wc-map-";
  }

  /** The words in the first column of a frame. */
  function FirstWords(rows: seq<Row>): (words: seq<string>)
    ensures |words| == |rows|
  {
    seq(|rows|, i requires 0 <= i < |rows| => if rows[i] != [] && rows[i][0].Str? then rows[i][0].s else "")
  }

  /** One row per word: the word and its count. */
  ghost predicate Lists(rows: seq<Row>, t: map<string, int>) {
    var words := FirstWords(rows);
    && (forall i | 0 <= i < |rows| :: words[i] in t && rows[i] == [Str(words[i]), Int(t[words[i]])])
    && (forall i, j | 0 <= i < j < |rows| :: words[i] != words[j])
    && (forall w <- t :: w in words)
  }

  /** The stores hold the counts of a node. */
  ghost predicate HoldsTally(entries: map<Key, Blob>, node: nat, rows: seq<Row>, t: map<string, int>) {
    FrameFits("SI", rows) && Lists(rows, t) && Holds(entries, CountKey(node), "SI", rows)
  }

  // ---------- the visitor and the writer ----------

  /** Counts the words it is shown, in a map. */
  class Adder {
    const counts: HashMap<string, int>
    var numWordsSeen: nat

    constructor (counts: HashMap<string, int>)
      ensures this.counts == counts && numWordsSeen == 0
    {
      this.counts, numWordsSeen := counts, 0;
    }

    method Accept(r: Row)
      requires counts.Valid() && this !in counts.Repr && r != [] && r[0].Str?
      modifies this, counts.Repr
      ensures counts.Valid() && fresh(counts.Repr - old(counts.Repr))
      ensures counts.M == Bump(old(counts.M), r[0].s) && numWordsSeen == old(numWordsSeen) + 1
    {
      hide HashMap.Valid, HashMap.Linked;
      var word := r[0].s;
      numWordsSeen := numWordsSeen + 1;
      var known := counts.ContainsKey(word);
      var sum := 0;
      if known {
        sum := counts.Get(word);
      }
      counts.Put(word, sum + 1);
    }
  }

  /** Hands out the rows of a map of counts, one per key. */
  class Summer {
    const words: seq<string>
    const counts: seq<int>
    var index: nat

    constructor (words: seq<string>, counts: seq<int>)
      ensures this.words == words && this.counts == counts && index == 0
    {
      this.words, this.counts, index := words, counts, 0;
    }

    predicate Done()
      reads this
    {
      index >= |words|
    }

    method Accept() returns (r: Row)
      requires |words| == |counts| && !Done()
      modifies this
      ensures r == [Str(words[old(index)]), Int(counts[old(index)])] && index == old(index) + 1
    {
      r := [Str(words[index]), Int(counts[index])];
      index := index + 1;
    }

    /** The rows a loader gets from this writer. */
    method Drain() returns (rows: seq<Row>)
      requires |words| == |counts| && index == 0
      modifies this
      ensures |rows| == |words| && forall i | 0 <= i < |rows| :: rows[i] == [Str(words[i]), Int(counts[i])]
    {
      rows := [];
      while !Done()
        invariant index == |rows| <= |words|
        invariant forall i | 0 <= i < |rows| :: rows[i] == [Str(words[i]), Int(counts[i])]
        decreases |words| - index
      {
        var r := Accept();
        rows := rows + [r];
      }
    }
  }

  // ---------- one node ----------

  /** Feeds the visited rows to an adder; what it has counted is the tally of their words. */
  method CountVisits(visits: seq<(nat, Row)>, hash: string -> nat, ghost words: seq<string>)
    returns (counts: HashMap<string, int>)
    requires |visits| == |words| && forall i | 0 <= i < |visits| :: visits[i].1 == [Str(words[i])]
    ensures counts.Valid() && counts.M == Tally(words) && fresh(counts) && fresh(counts.Repr)
  {
    hide HashMap.Valid, HashMap.Linked, Tally, Bump;
    counts := new HashMap(hash, CHUNK_SIZE);
    var add := new Adder(counts);
    NoTally();
    for i := 0 to |visits|
      invariant counts.Valid() && fresh(counts.Repr) && add !in counts.Repr
      invariant counts.M == Tally(words[..i])
    {
      assert words[..i + 1] == words[..i] + [words[i]];
      TallyMore(words[..i], words[i]);
      add.Accept(visits[i].1);
    }
    assert words[..|words|] == words;
  }

  lemma NoTally()
    ensures forall words: seq<string> :: Tally(words[..0]) == map[]
  {
  }

  /** The rows of counts are the map, and fit a frame. */
  lemma CountsFit(counts: HashMap<string, int>, words: seq<string>, rows: seq<Row>)
    requires counts.Valid() && counts.M == Tally(words)
    requires |words| < INT_LIMIT && forall w <- words :: |w| + 1 < SIZE_LIMIT
    requires var ks, vs := Firsts(Flattened(counts.buckets)), Seconds(Flattened(counts.buckets));
             |rows| == |ks| == |vs| && forall i | 0 <= i < |rows| :: rows[i] == [Str(ks[i]), Int(vs[i])]
    ensures Lists(rows, Tally(words)) && FrameFits("SI", rows)
  {
    hide Bucket, Represents, Tally, Flattened;
    KeysAndValues(counts.hash, counts.buckets, counts.M);
    TallyBounds(words);
    var t, ks := Tally(words), Firsts(Flattened(counts.buckets));
    assert FirstWords(rows) == ks;
    assert t.Keys == set w | w in words by {
      TallyKeys(words);
    }
    forall i | 0 <= i < |rows| ensures RowFits("SI", rows[i]) {
      assert ks[i] in ks && ks[i] in t && ks[i] in words;
    }
  }

  lemma TallyKeys(words: seq<string>)
    ensures Tally(words).Keys == set w | w in words
  {
  }

  /** Counts the words homed on a node and publishes the counts under the node's key. */
  method LocalCount(me: nat, kv: Stores, hash: string -> nat, ghost words: seq<string>) returns (ghost rows: seq<Row>)
    requires |words| < INT_LIMIT && FrameFits("S", WordRows(words))
    requires Holds(kv.entries, DataKey(), "S", WordRows(words))
    modifies kv
    ensures HoldsTally(kv.entries, me, rows, Tally(LocalWords(DataKey(), words, me)))
    ensures kv.entries == Stored(old(kv.entries), Publication(CountKey(me), "SI", rows, NumChunks(|rows|)))
  {
    hide FrameFits, Holds, Publication, NumChunks, Stored, Lists, Tally, HashMap.Valid, HashMap.Linked, Flattened,
      LocalIndices, CountKey;
    var df := new DataFrame.FromStore(DataKey(), kv, me, WordRows(words), "S");
    var visits := df.LocalMap(kv, WordRows(words));
    ghost var local := LocalWords(DataKey(), words, me);
    assert forall i | 0 <= i < |visits| :: visits[i].1 == [Str(local[i])];
    var counts := CountVisits(visits, hash, local);
    var ks := counts.Keys();
    var vs := counts.Values();
    var cnt := new Summer(ks, vs);
    var list := cnt.Drain();
    LocalWordsFit(words, me);
    CountsFit(counts, local, list);
    var w := new RowWriter(list);
    var key := BuildCountKey(me);
    var _ := DataFrame.FromVisitor(key, kv, "SI", w, me);
    rows := list;
  }

  lemma LocalWordsFit(words: seq<string>, me: nat)
    requires FrameFits("S", WordRows(words))
    ensures |LocalWords(DataKey(), words, me)| <= |words|
    ensures forall w <- LocalWords(DataKey(), words, me) :: |w| + 1 < SIZE_LIMIT
  {
    hide LocalIndices, NumChunks;
    var k, m := DataKey(), NumChunks(|words|);
    LocalInRange(k, WordRows(words), me, m);
    assert forall i | 0 <= i < |words| :: RowFits("S", WordRows(words)[i]) && WordRows(words)[i][0] == Str(words[i]);
    LocalIndicesSorted(k, |words|, me, m);
    SortedBelow(LocalIndices(k, |words|, me, m), |words|);
  }

  /** Ascending numbers below `n` are at most `n`. */
  lemma {:induction false} SortedBelow(s: seq<nat>, n: nat)
    requires forall i | 0 <= i < |s| :: s[i] < n
    requires forall i, j | 0 <= i < j < |s| :: s[i] < s[j]
    ensures |s| <= n
  {
    if s != [] {
      SortedBelow(s[..|s| - 1], s[|s| - 1]);
    }
  }

  // ---------- the merge ----------

  function WordSet(words: seq<string>): set<string> {
    set w | w in words
  }

  lemma BumpNext(m: map<string, int>, words: seq<string>, i: nat)
    requires i < |words| && words[i] !in words[..i]
    ensures BumpAll(m, WordSet(words[..i + 1])) == Bump(BumpAll(m, WordSet(words[..i])), words[i])
  {
    assert words[..i + 1] == words[..i] + [words[i]];
    assert WordSet(words[..i + 1]) == WordSet(words[..i]) + {words[i]};
  }

  lemma BumpNone(m: map<string, int>, words: seq<string>)
    ensures BumpAll(m, WordSet(words[..0])) == m
  {
  }

  lemma ListedWords(rows: seq<Row>, t: map<string, int>)
    requires Lists(rows, t)
    ensures WordSet(FirstWords(rows)) == t.Keys
    ensures forall i | 0 <= i < |rows| :: rows[i] != [] && rows[i][0] == Str(FirstWords(rows)[i])
    ensures forall i | 0 <= i < |rows| :: FirstWords(rows)[i] !in FirstWords(rows)[..i]
  {
  }

  /** Adds the counts of one node: each of its words counts once, whatever its count. */
  method MergeNode(node: nat, kv: Stores, counts: HashMap<string, int>, ghost rows: seq<Row>, ghost t: map<string, int>)
    requires HoldsTally(kv.entries, node, rows, t)
    requires counts.Valid() && kv !in counts.Repr
    modifies counts.Repr
    ensures counts.Valid() && fresh(counts.Repr - old(counts.Repr))
    ensures counts.M == BumpAll(old(counts.M), t.Keys)
  {
    hide FrameFits, Holds, NumChunks, Lists, HashMap.Valid, HashMap.Linked, WordSet, BumpAll, Bump, FirstWords, CountKey;
    var key := BuildCountKey(node);
    var df := new DataFrame.FromStore(key, kv, 0, rows, "SI");
    var visits := df.DistributedMap(kv, rows);
    var add := new Adder(counts);
    ghost var words, m := FirstWords(rows), counts.M;
    ListedWords(rows, t);
    BumpNone(m, words);
    for i := 0 to |visits|
      invariant counts.Valid() && fresh(counts.Repr - old(counts.Repr)) && add !in counts.Repr
      invariant counts.M == BumpAll(m, WordSet(words[..i]))
    {
      BumpNext(m, words, i);
      add.Accept(visits[i].1);
    }
    assert words[..|words|] == words;
  }

  /** The counts of the nodes `0` to `n - 1` are in the stores. */
  ghost predicate HoldsTallies(entries: map<Key, Blob>, frames: seq<seq<Row>>, tallies: seq<map<string, int>>, n: nat) {
    && n <= |frames| && n <= |tallies|
    && forall i | 0 <= i < n :: HoldsTally(entries, i, frames[i], tallies[i])
  }

  /** Node 0 merges the counts of all nodes, its own first. */
  method Reduce(kv: Stores, hash: string -> nat, ghost frames: seq<seq<Row>>, ghost tallies: seq<map<string, int>>)
    returns (counts: HashMap<string, int>)
    requires |tallies| == NUM_NODES && HoldsTallies(kv.entries, frames, tallies, NUM_NODES)
    ensures counts.Valid() && counts.M == Merged(tallies)
  {
    hide HoldsTally, HashMap.Valid, HashMap.Linked, BumpAll;
    counts := new HashMap(hash, CHUNK_SIZE);
    MergeNode(0, kv, counts, frames[0], tallies[0]);
    assert tallies[..1][..0] == [] && tallies[..1][0] == tallies[0];
    for i := 1 to NUM_NODES
      invariant counts.Valid() && fresh(counts.Repr) && counts.M == Merged(tallies[..i])
    {
      assert tallies[..i + 1][..i] == tallies[..i];
      MergeNode(i, kv, counts, frames[i], tallies[i]);
    }
    assert tallies[..NUM_NODES] == tallies;
  }

  // ---------- all nodes ----------

  /** Publishing the counts of one node keeps the words and the counts of the others. */
  lemma CountSurvives(entries: map<Key, Blob>, node: nat, rows: seq<Row>, other: nat, rows': seq<Row>, t: map<string, int>)
    requires node != other && FrameFits("SI", rows)
    requires HoldsTally(entries, other, rows', t)
    ensures HoldsTally(Stored(entries, Publication(CountKey(node), "SI", rows, NumChunks(|rows|))), other, rows', t)
  {
    hide Holds, FrameFits, Lists, NumChunks, Publication, Stored, ChunkName, CountName;
    CountNamesDiffer(node, other);
    NoNuls(node);
    NoNuls(other);
    forall col, chunk
      ensures CountName(other) != ChunkName(CountName(node), col, chunk)
      ensures CountName(node) != ChunkName(CountName(other), col, chunk)
    {
      CountIsNoChunk(other, CountName(node), col, chunk);
      CountIsNoChunk(node, CountName(other), col, chunk);
    }
    FramesDoNotInterfere(entries, CountKey(other), "SI", rows', CountKey(node), "SI", rows, NumChunks(|rows|));
  }

  lemma DataSurvives(entries: map<Key, Blob>, node: nat, rows: seq<Row>, data: seq<Row>)
    requires FrameFits("SI", rows) && FrameFits("S", data) && Holds(entries, DataKey(), "S", data)
    ensures Holds(Stored(entries, Publication(CountKey(node), "SI", rows, NumChunks(|rows|))), DataKey(), "S", data)
  {
    hide Holds, FrameFits, NumChunks, Publication, Stored, ChunkName, CountName, DataKey;
    NoNuls(node);
    DataIsNeither(node, CountName(node), 0, 0);
    forall col, chunk
      ensures DataKey().name != ChunkName(CountName(node), col, chunk)
      ensures CountName(node) != ChunkName(DataKey().name, col, chunk)
    {
      DataIsNeither(node, CountName(node), col, chunk);
      CountIsNoChunk(node, DataKey().name, col, chunk);
    }
    FramesDoNotInterfere(entries, DataKey(), "S", data, CountKey(node), "SI", rows, NumChunks(|rows|));
  }

  /** Every node counts its own share. */
  method CountEverywhere(kv: Stores, hash: string -> nat, ghost words: seq<string>)
    returns (ghost frames: seq<seq<Row>>)
    requires |words| < INT_LIMIT && FrameFits("S", WordRows(words))
    requires Holds(kv.entries, DataKey(), "S", WordRows(words))
    modifies kv
    ensures HoldsTallies(kv.entries, frames, Tallies(Shares(DataKey(), words, NumChunks(|words|))), NUM_NODES)
  {
    hide FrameFits, Holds, HoldsTally, Publication, NumChunks, Stored, Tally, WordsOfNode, CountKey, DataKey;
    ghost var tallies := Tallies(Shares(DataKey(), words, NumChunks(|words|)));
    frames := [];
    for n := 0 to NUM_NODES
      invariant Holds(kv.entries, DataKey(), "S", WordRows(words))
      invariant |frames| == n && HoldsTallies(kv.entries, frames, tallies, n)
    {
      ghost var before := kv.entries;
      ghost var rows := LocalCount(n, kv, hash, words);
      TallyFits(kv.entries, n, rows, tallies[n]);
      DataSurvives(before, n, rows, WordRows(words));
      forall i | 0 <= i < n ensures HoldsTally(kv.entries, i, frames[i], tallies[i]) {
        CountSurvives(before, n, rows, i, frames[i], tallies[i]);
      }
      frames := frames + [rows];
    }
  }

  lemma TallyFits(entries: map<Key, Blob>, node: nat, rows: seq<Row>, t: map<string, int>)
    requires HoldsTally(entries, node, rows, t)
    ensures FrameFits("SI", rows)
  {
  }

  /**
   The whole count over a published frame of words. Node 0 ends with exactly
   the words of the frame, each with the number of nodes that saw it.
   */
  method CountWords(kv: Stores, hash: string -> nat, words: seq<string>) returns (counts: HashMap<string, int>)
    requires |words| < INT_LIMIT && FrameFits("S", WordRows(words))
    modifies kv
    ensures counts.Valid() && counts.M.Keys == (set w | w in words)
    ensures forall w <- words ::
              counts.M[w] == |set n: nat | n < NUM_NODES && w in LocalWords(DataKey(), words, n)|
  {
    hide FrameFits, Holds, HoldsTally, Publication, NumChunks, Stored, Tally, WordsOfNode, HashMap.Valid, HashMap.Linked,
      Merged, DataKey;
    var w := new RowWriter(WordRows(words));
    var _ := DataFrame.FromVisitor(DataKey(), kv, "S", w, 0);
    ghost var frames := CountEverywhere(kv, hash, words);
    ghost var tallies := Tallies(Shares(DataKey(), words, NumChunks(|words|)));
    counts := Reduce(kv, hash, frames, tallies);
    forall w ensures w in counts.M <==> w in words {
      MergedKeysAreWords(DataKey(), words, w);
    }
    forall w <- words ensures counts.M[w] == |set n: nat | n < NUM_NODES && w in LocalWords(DataKey(), words, n)| {
      MergedCountsHolders(tallies, w);
      MergedKeysAreWords(DataKey(), words, w);
      HoldersAre(words, w);
    }
  }

  lemma HoldersAre(words: seq<string>, w: string)
    ensures Holders(Tallies(Shares(DataKey(), words, NumChunks(|words|))), w) ==
            set n: nat | n < NUM_NODES && w in LocalWords(DataKey(), words, n)
  {
    hide NumChunks, DataKey, WordsOfNode;
    var shares := Shares(DataKey(), words, NumChunks(|words|));
    forall n | 0 <= n < NUM_NODES ensures w in Tallies(shares)[n] <==> w in LocalWords(DataKey(), words, n) {
      TallyKeys(shares[n]);
    }
  }
}
