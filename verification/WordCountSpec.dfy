/** What counting words means: occurrences as multisets, shared out over the nodes that hold the chunks. */
module WordCountSpec {
  import opened Params
  import opened Arith
  import opened Messages
  import opened Layout
  import opened Frames

  function WordRows(words: seq<string>): (rows: seq<Row>)
    ensures |rows| == |words|
  {
    seq(|words|, i requires 0 <= i < |words| => [Str(words[i])])
  }

  /** How often each word occurs. */
  function Tally(words: seq<string>): map<string, int> {
    map w | w in words :: multiset(words)[w]
  }

  /** One more `w`. */
  function Bump(m: map<string, int>, w: string): map<string, int> {
    m[w := (if w in m then m[w] else 0) + 1]
  }

  lemma TallyMore(words: seq<string>, w: string)
    ensures Tally(words + [w]) == Bump(Tally(words), w)
  {
    var before, after := Tally(words), Tally(words + [w]);
    assert multiset(words + [w]) == multiset(words) + multiset{w};
    forall x ensures x in after <==> x in Bump(before, w) {
    }
  }

  lemma {:induction false} TallyBounds(words: seq<string>)
    ensures |Tally(words)| <= |words|
    ensures forall w <- Tally(words) :: 0 < Tally(words)[w] <= |words|
  {
    assert forall w <- words :: 0 < multiset(words)[w] <= |multiset(words)|;
    if words != [] {
      var before, w := words[..|words| - 1], words[|words| - 1];
      TallyBounds(before);
      assert words == before + [w];
      TallyMore(before, w);
      assert Tally(words).Keys == Tally(before).Keys + {w};
    }
  }

  // ---------- the words of each node ----------

  function WordsAt(words: seq<string>, indices: seq<nat>): (s: seq<string>)
    ensures |s| == |indices|
  {
    seq(|indices|, i requires 0 <= i < |indices| => if indices[i] < |words| then words[indices[i]] else "")
  }

  /** The words a node sees in its part of the first `m` chunks. */
  function WordsOfNode(k: Key, words: seq<string>, me: nat, m: nat): seq<string> {
    WordsAt(words, LocalIndices(k, |words|, me, m))
  }

  /** The words a node sees. */
  function LocalWords(k: Key, words: seq<string>, me: nat): seq<string> {
    WordsOfNode(k, words, me, NumChunks(|words|))
  }

  function Shares(k: Key, words: seq<string>, m: nat): (shares: seq<seq<string>>)
    ensures |shares| == NUM_NODES
  {
    seq(NUM_NODES, me requires 0 <= me < NUM_NODES => WordsOfNode(k, words, me, m))
  }

  function Pool(shares: seq<seq<string>>): multiset<string> {
    if shares == [] then multiset{}
    else Pool(shares[..|shares| - 1]) + multiset(shares[|shares| - 1])
  }

  lemma {:induction false} PoolUpdate(shares: seq<seq<string>>, h: nat, more: seq<string>)
    requires h < |shares|
    ensures Pool(shares[h := shares[h] + more]) == Pool(shares) + multiset(more)
  {
    var shares' := shares[h := shares[h] + more];
    var n := |shares| - 1;
    if h < n {
      assert shares'[..n] == shares[..n][h := shares[..n][h] + more];
      PoolUpdate(shares[..n], h, more);
    } else {
      assert shares'[..n] == shares[..n];
      assert multiset(shares[h] + more) == multiset(shares[h]) + multiset(more);
    }
  }

  lemma {:induction false} PoolOfNone(shares: seq<seq<string>>)
    requires forall i | 0 <= i < |shares| :: shares[i] == []
    ensures Pool(shares) == multiset{}
  {
    if shares != [] {
      PoolOfNone(shares[..|shares| - 1]);
    }
  }

  lemma ChunkWords(words: seq<string>, c: nat)
    ensures Min(Rows(c), |words|) <= Min(Rows(c + 1), |words|) <= |words|
    ensures WordsAt(words, ChunkIndices(|words|, c)) == words[Min(Rows(c), |words|)..Min(Rows(c + 1), |words|)]
  {
    hide Rows;
    RowsMonotone(c, c + 1);
  }

  lemma WordsAtConcat(words: seq<string>, a: seq<nat>, b: seq<nat>)
    ensures WordsAt(words, a + b) == WordsAt(words, a) + WordsAt(words, b)
  {
  }

  /** Another chunk goes to its home, and to no other node. */
  lemma ChunkGoesHome(k: Key, words: seq<string>, c: nat)
    ensures HomeOf(k, c) < NUM_NODES
    ensures var before, h := Shares(k, words, c), HomeOf(k, c);
            Shares(k, words, c + 1) == before[h := before[h] + WordsAt(words, ChunkIndices(|words|, c))]
  {
    hide HomeOf, WordsAt;
    var more, h := ChunkIndices(|words|, c), HomeOf(k, c);
    assert HomeOf(k, c) < NUM_NODES by { HomeIsNode(k, c); }
    var before, after := Shares(k, words, c), Shares(k, words, c + 1);
    forall me | 0 <= me < NUM_NODES
      ensures after[me] == before[h := before[h] + WordsAt(words, more)][me]
    {
      var part := LocalIndices(k, |words|, me, c);
      WordsAtConcat(words, part, more);
      assert part + [] == part;
    }
  }

  lemma HomeIsNode(k: Key, c: nat)
    ensures HomeOf(k, c) < NUM_NODES
  {
  }

  /** What the nodes see in the first `m` chunks is what lies in those chunks, word for word. */
  lemma {:induction false} SharesPool(k: Key, words: seq<string>, m: nat)
    ensures Pool(Shares(k, words, m)) == multiset(words[..Min(Rows(m), |words|)])
  {
    hide *;
    if m == 0 {
      NothingShared(k, words);
    } else {
      SharesPool(k, words, m - 1);
      ChunkGoesHome(k, words, m - 1);
      ChunkWords(words, m - 1);
      PoolUpdate(Shares(k, words, m - 1), HomeOf(k, m - 1), WordsAt(words, ChunkIndices(|words|, m - 1)));
      PrefixGrows(words, Min(Rows(m - 1), |words|), Min(Rows(m), |words|));
    }
  }

  lemma NothingShared(k: Key, words: seq<string>)
    ensures Pool(Shares(k, words, 0)) == multiset(words[..Min(Rows(0), |words|)])
  {
    hide Rows, HomeOf;
    RowsIs(0);
    PoolOfNone(Shares(k, words, 0));
  }

  lemma PrefixGrows(words: seq<string>, lo: nat, hi: nat)
    requires lo <= hi <= |words|
    ensures multiset(words[..lo]) + multiset(words[lo..hi]) == multiset(words[..hi])
  {
    assert words[..hi] == words[..lo] + words[lo..hi];
  }

  /** The nodes together see every occurrence of every word exactly once. */
  lemma WordsConserved(k: Key, words: seq<string>)
    ensures Pool(Shares(k, words, NumChunks(|words|))) == multiset(words)
  {
    hide Rows, NumChunks, Shares;
    SharesPool(k, words, NumChunks(|words|));
    NumChunksCovers(|words|, NumChunks(|words|));
    assert words[..|words|] == words;
  }

  /** The counts of `w` in the given tallies, added up. */
  function CountOver(tallies: seq<map<string, int>>, w: string): int {
    if tallies == [] then 0
    else
      var last := tallies[|tallies| - 1];
      CountOver(tallies[..|tallies| - 1], w) + if w in last then last[w] else 0
  }

  function Tallies(shares: seq<seq<string>>): (tallies: seq<map<string, int>>)
    ensures |tallies| == |shares|
  {
    seq(|shares|, i requires 0 <= i < |shares| => Tally(shares[i]))
  }

  lemma {:induction false} CountsArePooled(shares: seq<seq<string>>, w: string)
    ensures CountOver(Tallies(shares), w) == Pool(shares)[w]
  {
    if shares != [] {
      var n := |shares| - 1;
      CountsArePooled(shares[..n], w);
      assert Tallies(shares)[..n] == Tallies(shares[..n]);
    }
  }

  /** The local counts of a word add up to its occurrences in the whole frame. */
  lemma CountsAddUp(k: Key, words: seq<string>, w: string)
    ensures CountOver(Tallies(Shares(k, words, NumChunks(|words|))), w) == multiset(words)[w]
  {
    WordsConserved(k, words);
    CountsArePooled(Shares(k, words, NumChunks(|words|)), w);
  }

  // ---------- merging ----------

  /** One more for each of the words. */
  function BumpAll(m: map<string, int>, words: set<string>): map<string, int> {
    map w | w in m.Keys + words :: (if w in m then m[w] else 0) + if w in words then 1 else 0
  }

  /** What merging the tallies one after the other leaves: the counts in them play no part. */
  function Merged(tallies: seq<map<string, int>>): map<string, int> {
    if tallies == [] then map[]
    else BumpAll(Merged(tallies[..|tallies| - 1]), tallies[|tallies| - 1].Keys)
  }

  function Holders(tallies: seq<map<string, int>>, w: string): set<nat> {
    set n | 0 <= n < |tallies| && w in tallies[n]
  }

  /** After the merge a word is there if some node saw it, and counts the nodes that did. */
  lemma {:induction false} MergedCountsHolders(tallies: seq<map<string, int>>, w: string)
    ensures w in Merged(tallies) <==> Holders(tallies, w) != {}
    ensures w in Merged(tallies) ==> Merged(tallies)[w] == |Holders(tallies, w)|
  {
    if tallies != [] {
      var n := |tallies| - 1;
      MergedCountsHolders(tallies[..n], w);
      var before := Holders(tallies[..n], w);
      assert n !in before;
      assert Holders(tallies, w) == before + if w in tallies[n] then {n} else {};
    }
  }

  lemma {:induction false} InPool(shares: seq<seq<string>>, w: string)
    ensures w in Pool(shares) <==> exists n | 0 <= n < |shares| :: w in shares[n]
  {
    if shares != [] {
      InPool(shares[..|shares| - 1], w);
    }
  }

  /** The keys of the merged map are exactly the words of the frame. */
  lemma MergedKeysAreWords(k: Key, words: seq<string>, w: string)
    ensures w in Merged(Tallies(Shares(k, words, NumChunks(|words|)))) <==> w in words
  {
    hide Shares, NumChunks, Merged, Pool;
    var shares := Shares(k, words, NumChunks(|words|));
    WordsConserved(k, words);
    InPool(shares, w);
    MergedCountsHolders(Tallies(shares), w);
    assert forall n | 0 <= n < |shares| :: w in shares[n] <==> n in Holders(Tallies(shares), w);
    assert w in words <==> w in multiset(words);
  }

  // ---------- when the merge is the total ----------

  lemma OneMoreHolder(shares: seq<seq<string>>, w: string)
    requires shares != []
    ensures var n := |shares| - 1;
            |Holders(Tallies(shares), w)| ==
            |Holders(Tallies(shares[..n]), w)| + if multiset(shares[n])[w] >= 1 then 1 else 0
  {
    var n := |shares| - 1;
    var before, tallies := Holders(Tallies(shares[..n]), w), Tallies(shares);
    assert tallies[..n] == Tallies(shares[..n]);
    assert w in tallies[n] <==> multiset(shares[n])[w] >= 1 by {
      assert w in tallies[n] <==> w in shares[n];
    }
    assert n !in before;
    assert Holders(tallies, w) == before + if w in tallies[n] then {n} else {};
  }

  /** Each of the shares has the word at most once. */
  predicate OnceEach(shares: seq<seq<string>>, w: string) {
    forall n | 0 <= n < |shares| :: multiset(shares[n])[w] <= 1
  }

  lemma OnceEachLast(shares: seq<seq<string>>, w: string)
    requires shares != []
    ensures var n := |shares| - 1; OnceEach(shares, w) <==> OnceEach(shares[..n], w) && multiset(shares[n])[w] <= 1
  {
    var front := shares[..|shares| - 1];
    assert forall m | 0 <= m < |front| :: front[m] == shares[m];
  }

  /** A word is counted once per share that has it, so all its occurrences count if no share has two. */
  lemma {:induction false} HoldersAgainstPool(shares: seq<seq<string>>, w: string)
    ensures |Holders(Tallies(shares), w)| <= Pool(shares)[w]
    ensures |Holders(Tallies(shares), w)| == Pool(shares)[w] <==> OnceEach(shares, w)
  {
    hide Holders, Tallies, OnceEach;
    if shares == [] {
      NobodyHolds(w);
    } else {
      HoldersAgainstPool(shares[..|shares| - 1], w);
      OneMoreHolder(shares, w);
      OnceEachLast(shares, w);
    }
  }

  lemma NobodyHolds(w: string)
    ensures Holders(Tallies([]), w) == {} && OnceEach([], w)
  {
  }

  /** The merged count of a word is its number of occurrences exactly if no node saw it twice. */
  lemma MergedIsTotalIff(k: Key, words: seq<string>, w: string)
    requires w in words
    ensures var merged := Merged(Tallies(Shares(k, words, NumChunks(|words|))));
            w in merged &&
            (merged[w] == multiset(words)[w] <==>
             forall n | 0 <= n < NUM_NODES :: multiset(LocalWords(k, words, n))[w] <= 1)
  {
    hide NumChunks, Merged, Pool, WordsOfNode;
    var shares := Shares(k, words, NumChunks(|words|));
    MergedKeysAreWords(k, words, w);
    MergedCountsHolders(Tallies(shares), w);
    WordsConserved(k, words);
    HoldersAgainstPool(shares, w);
    assert forall n | 0 <= n < NUM_NODES :: shares[n] == LocalWords(k, words, n);
  }

  /** A word more frequent than there are nodes is never counted in full. */
  lemma FrequentWordsAreUndercounted(k: Key, words: seq<string>, w: string)
    requires multiset(words)[w] > NUM_NODES
    ensures var merged := Merged(Tallies(Shares(k, words, NumChunks(|words|))));
            w in merged && merged[w] <= NUM_NODES < multiset(words)[w]
  {
    hide NumChunks, Merged;
    var tallies := Tallies(Shares(k, words, NumChunks(|words|)));
    MergedKeysAreWords(k, words, w);
    MergedCountsHolders(tallies, w);
    HoldersBelow(tallies, w, NUM_NODES);
  }

  lemma {:induction false} HoldersBelow(tallies: seq<map<string, int>>, w: string, n: nat)
    requires |tallies| == n
    ensures |Holders(tallies, w)| <= n
  {
    if n > 0 {
      HoldersBelow(tallies[..n - 1], w, n - 1);
      var before := Holders(tallies[..n - 1], w);
      assert Holders(tallies, w) == before + if w in tallies[n - 1] then {n - 1} else {};
    }
  }

  /** One word, written once more often than there are nodes, comes out wrong. */
  lemma RepeatedWordIsUndercounted(k: Key)
    ensures var words := seq(NUM_NODES + 1, _ => "a");
            var merged := Merged(Tallies(Shares(k, words, NumChunks(|words|))));
            "a" in merged && merged["a"] < multiset(words)["a"] == NUM_NODES + 1
  {
    hide NumChunks, Merged, Shares;
    Repeated("a", NUM_NODES + 1);
    FrequentWordsAreUndercounted(k, seq(NUM_NODES + 1, _ => "a"), "a");
  }

  lemma {:induction false} Repeated(w: string, n: nat)
    ensures multiset(seq(n, _ => w))[w] == n
  {
    if n > 0 {
      Repeated(w, n - 1);
      assert seq(n, _ => w) == seq(n - 1, _ => w) + [w];
    }
  }
}
