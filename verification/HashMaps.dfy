/**
 The chained hash map: a table of linked chains that doubles when it is more
 than six tenths full.
 */
module HashMaps {
  // ---------- tables as values ----------

  type Pairs<K, V> = seq<(K, V)>

  /** The chain a hash belongs to. */
  function Bucket(h: nat, n: nat): (b: nat)
    requires n > 0
    ensures b < n
  {
    h % n
  }

  ghost predicate DistinctKeys<K, V>(pairs: Pairs<K, V>) {
    forall j, l | 0 <= j < l < |pairs| :: pairs[j].0 != pairs[l].0
  }

  /** Where key `k` sits in a chain, or -1. */
  ghost function Find<K, V>(pairs: Pairs<K, V>, k: K): (j: int)
    ensures -1 <= j < |pairs| && (j >= 0 ==> pairs[j].0 == k)
    ensures j < 0 ==> forall l | 0 <= l < |pairs| :: pairs[l].0 != k
  {
    if pairs == [] then -1
    else if pairs[0].0 == k then 0
    else
      var j := Find(pairs[1..], k);
      assert forall l | 1 <= l < |pairs| :: pairs[l] == pairs[1..][l - 1];
      if j < 0 then -1 else j + 1
  }

  lemma FindIs<K, V>(pairs: Pairs<K, V>, k: K, j: nat)
    requires DistinctKeys(pairs) && j < |pairs| && pairs[j].0 == k
    ensures Find(pairs, k) == j
  {
  }

  /** The table holds each pair of `m` once, in the chain of its key's hash, and nothing else. */
  ghost predicate Represents<K(!new), V>(hash: K -> nat, buckets: seq<Pairs<K, V>>, m: map<K, V>) {
    && |buckets| > 0
    && (forall i | 0 <= i < |buckets| :: ChainHolds(hash, buckets[i], i, |buckets|, m))
    && (forall k <- m :: Find(buckets[Bucket(hash(k), |buckets|)], k) >= 0)
  }

  ghost predicate ChainHolds<K, V>(hash: K -> nat, pairs: Pairs<K, V>, i: nat, n: nat, m: map<K, V>)
    requires n > 0
  {
    && DistinctKeys(pairs)
    && forall j | 0 <= j < |pairs| ::
         Bucket(hash(pairs[j].0), n) == i && pairs[j].0 in m && m[pairs[j].0] == pairs[j].1
  }

  lemma Lookup<K(!new), V>(hash: K -> nat, buckets: seq<Pairs<K, V>>, m: map<K, V>, k: K)
    requires Represents(hash, buckets, m)
    ensures var b := Bucket(hash(k), |buckets|);
            var j := Find(buckets[b], k);
            && (k in m <==> j >= 0) && (j >= 0 ==> buckets[b][j] == (k, m[k]))
  {
    hide Bucket, Find;
    var b := Bucket(hash(k), |buckets|);
    assert ChainHolds(hash, buckets[b], b, |buckets|, m);
  }

  lemma RepresentsInsert<K(!new), V>(hash: K -> nat, buckets: seq<Pairs<K, V>>, m: map<K, V>, k: K, v: V)
    requires Represents(hash, buckets, m) && k !in m
    ensures var b := Bucket(hash(k), |buckets|);
            Represents(hash, buckets[b := [(k, v)] + buckets[b]], m[k := v])
  {
    hide Bucket;
    var b, n := Bucket(hash(k), |buckets|), |buckets|;
    var buckets' := buckets[b := [(k, v)] + buckets[b]];
    Lookup(hash, buckets, m, k);
    forall i | 0 <= i < n ensures ChainHolds(hash, buckets'[i], i, n, m[k := v]) {
      assert ChainHolds(hash, buckets[i], i, n, m);
    }
    forall x <- m[k := v] ensures Find(buckets'[Bucket(hash(x), n)], x) >= 0 {
      Lookup(hash, buckets, m, x);
      assert buckets'[b][1..] == buckets[b];
    }
  }

  lemma RepresentsUpdate<K(!new), V>(hash: K -> nat, buckets: seq<Pairs<K, V>>, m: map<K, V>, k: K, v: V, j: nat)
    requires Represents(hash, buckets, m)
    requires j == Find(buckets[Bucket(hash(k), |buckets|)], k)
    ensures var b := Bucket(hash(k), |buckets|);
            Represents(hash, buckets[b := buckets[b][j := (k, v)]], m[k := v])
  {
    hide Bucket, Find;
    var b, n := Bucket(hash(k), |buckets|), |buckets|;
    var chain' := buckets[b][j := (k, v)];
    var buckets' := buckets[b := chain'];
    assert forall l | 0 <= l < |chain'| :: chain'[l].0 == buckets[b][l].0;
    forall i | 0 <= i < n ensures ChainHolds(hash, buckets'[i], i, n, m[k := v]) {
      assert ChainHolds(hash, buckets[i], i, n, m);
      assert i == b ==> forall l | 0 <= l < |chain'| && l != j :: chain'[l].0 != k;
    }
    forall x <- m[k := v] ensures Find(buckets'[Bucket(hash(x), n)], x) >= 0 {
      Lookup(hash, buckets, m, x);
      if Bucket(hash(x), n) == b {
        var l := Find(buckets[b], x);
        FindIs(chain', x, l);
      }
    }
  }

  lemma RepresentsRemove<K(!new), V>(hash: K -> nat, buckets: seq<Pairs<K, V>>, m: map<K, V>, k: K, j: nat)
    requires Represents(hash, buckets, m)
    requires j == Find(buckets[Bucket(hash(k), |buckets|)], k)
    ensures var b := Bucket(hash(k), |buckets|);
            Represents(hash, buckets[b := buckets[b][..j] + buckets[b][j + 1..]], m - {k})
  {
    hide Bucket, Find;
    var b, n := Bucket(hash(k), |buckets|), |buckets|;
    var chain, chain' := buckets[b], buckets[b][..j] + buckets[b][j + 1..];
    var buckets' := buckets[b := chain'];
    forall i | 0 <= i < n ensures ChainHolds(hash, buckets'[i], i, n, m - {k}) {
      assert ChainHolds(hash, buckets[i], i, n, m);
      assert forall l | 0 <= l < |chain'| :: chain'[l] == chain[if l < j then l else l + 1];
    }
    forall x <- m - {k} ensures Find(buckets'[Bucket(hash(x), n)], x) >= 0 {
      Lookup(hash, buckets, m, x);
      if Bucket(hash(x), n) == b {
        var l := Find(chain, x);
        assert ChainHolds(hash, chain', b, n, m - {k});
        FindIs(chain', x, if l < j then l else l - 1);
      }
    }
  }

  // ---------- linked chains ----------

  class MapNode<K, V> {
    const key: K
    var value: V
    var next: MapNode?<K, V>
    ghost const home: nat

    constructor (key: K, value: V, next: MapNode?<K, V>, ghost home: nat)
      ensures this.key == key && this.value == value && this.next == next && this.home == home
    {
      this.key, this.value, this.next, this.home := key, value, next, home;
    }
  }

  /** The node at position `j` of a chain, or null past its end. */
  function NodeAt<K, V>(chain: seq<MapNode<K, V>>, j: nat): MapNode?<K, V> {
    if j < |chain| then chain[j] else null
  }

  /** From `head` on, the nodes of chain number `i` hold the given pairs in order. */
  ghost predicate ChainOk<K, V>(i: nat, chain: seq<MapNode<K, V>>, head: MapNode?<K, V>, pairs: Pairs<K, V>)
    reads chain
  {
    && |chain| == |pairs| && head == NodeAt(chain, 0)
    && forall j | 0 <= j < |chain| ::
         && chain[j].home == i && chain[j].key == pairs[j].0 && chain[j].value == pairs[j].1
         && chain[j].next == NodeAt(chain, j + 1)
  }

  /** Walks a chain to the node of a key, keeping the node before it. */
  method Walk<K(==), V>(head: MapNode?<K, V>, k: K, ghost i: nat, ghost chain: seq<MapNode<K, V>>,
                        ghost pairs: Pairs<K, V>)
    returns (prev: MapNode?<K, V>, cur: MapNode?<K, V>)
    requires ChainOk(i, chain, head, pairs) && DistinctKeys(pairs)
    ensures var j := Find(pairs, k);
            && (j < 0 ==> cur == null)
            && (j >= 0 ==> cur == chain[j] && prev == if j == 0 then null else chain[j - 1])
  {
    hide Find;
    prev, cur := null, head;
    ghost var j := 0;
    while cur != null && cur.key != k
      invariant 0 <= j <= |chain| && cur == NodeAt(chain, j)
      invariant prev == if j == 0 then null else chain[j - 1]
      invariant forall l | 0 <= l < j :: pairs[l].0 != k
      decreases |chain| - j
    {
      prev, cur := cur, cur.next;
      j := j + 1;
    }
    if cur != null {
      FindIs(pairs, k, j);
    }
  }

  lemma NodesOf<K, V>(i: nat, chain: seq<MapNode<K, V>>, head: MapNode?<K, V>, pairs: Pairs<K, V>)
    requires ChainOk(i, chain, head, pairs)
    ensures |chain| == |pairs|
    ensures forall j | 0 <= j < |chain| ::
              chain[j].home == i && chain[j].key == pairs[j].0 && chain[j].value == pairs[j].1
  {
  }

  /** Gives the node at position `j` another value. */
  method SetValue<K, V>(node: MapNode<K, V>, v: V, ghost j: nat, ghost i: nat, ghost chain: seq<MapNode<K, V>>,
                        ghost head: MapNode?<K, V>, ghost pairs: Pairs<K, V>)
    requires ChainOk(i, chain, head, pairs) && DistinctKeys(pairs) && j < |chain| && node == chain[j]
    modifies node
    ensures ChainOk(i, chain, head, pairs[j := (node.key, v)])
  {
    node.value := v;
  }

  method PushFront<K, V>(head: MapNode?<K, V>, k: K, v: V, ghost i: nat, ghost chain: seq<MapNode<K, V>>,
                         ghost pairs: Pairs<K, V>) returns (node: MapNode<K, V>)
    requires ChainOk(i, chain, head, pairs)
    ensures fresh(node) && ChainOk(i, [node] + chain, node, [(k, v)] + pairs)
  {
    node := new MapNode(k, v, head, i);
  }

  /** Takes the node `cur`, which follows `prev`, out of its chain; returns the new head. */
  method Unlink<K, V>(head: MapNode?<K, V>, prev: MapNode?<K, V>, cur: MapNode<K, V>, ghost j: nat, ghost i: nat,
                      ghost chain: seq<MapNode<K, V>>, ghost pairs: Pairs<K, V>) returns (head': MapNode?<K, V>)
    requires ChainOk(i, chain, head, pairs) && DistinctKeys(pairs) && j < |chain|
    requires cur == chain[j] && prev == if j == 0 then null else chain[j - 1]
    modifies chain
    ensures ChainOk(i, chain[..j] + chain[j + 1..], head', pairs[..j] + pairs[j + 1..])
  {
    DistinctNodes(i, chain, head, pairs);
    if prev == null {
      head' := cur.next;
      cur.next := null;
      assert chain[..0] + chain[1..] == chain[1..] && pairs[..0] + pairs[1..] == pairs[1..];
    } else {
      head' := head;
      Bypass(prev, cur, j, i, chain, head, pairs);
    }
  }

  method Bypass<K, V>(prev: MapNode<K, V>, cur: MapNode<K, V>, ghost j: nat, ghost i: nat,
                      ghost chain: seq<MapNode<K, V>>, ghost head: MapNode?<K, V>, ghost pairs: Pairs<K, V>)
    requires ChainOk(i, chain, head, pairs) && 0 < j < |chain|
    requires forall l, m | 0 <= l < m < |chain| :: chain[l] != chain[m]
    requires cur == chain[j] && prev == chain[j - 1]
    modifies prev`next, cur`next
    ensures ChainOk(i, chain[..j] + chain[j + 1..], head, pairs[..j] + pairs[j + 1..])
  {
    hide ChainOk, NodeAt;
    LinksOf(i, chain, head, pairs);
    prev.next := cur.next;
    cur.next := null;
    ghost var chain', pairs' := chain[..j] + chain[j + 1..], pairs[..j] + pairs[j + 1..];
    forall l | 0 <= l < |chain'| ensures NodeHolds(i, chain', l, pairs') {
      var m := if l < j then l else l + 1;
      assert chain'[l] == chain[m] && pairs'[l] == pairs[m];
      assert chain[m] != cur && (chain[m] == prev <==> m == j - 1);
      assert old(NodeHolds(i, chain, m, pairs)) && old(NodeHolds(i, chain, j, pairs));
      SkipNode(chain, j, l);
    }
    FromLinks(i, chain', head, pairs', chain, j);
  }

  ghost predicate NodeHolds<K, V>(i: nat, chain: seq<MapNode<K, V>>, j: nat, pairs: Pairs<K, V>)
    requires j < |chain| == |pairs|
    reads chain
  {
    && chain[j].home == i && chain[j].key == pairs[j].0 && chain[j].value == pairs[j].1
    && chain[j].next == NodeAt(chain, j + 1)
  }

  lemma LinksOf<K, V>(i: nat, chain: seq<MapNode<K, V>>, head: MapNode?<K, V>, pairs: Pairs<K, V>)
    requires ChainOk(i, chain, head, pairs)
    ensures |chain| == |pairs| && head == NodeAt(chain, 0)
    ensures forall j | 0 <= j < |chain| :: NodeHolds(i, chain, j, pairs)
  {
  }

  lemma SkipNode<K, V>(chain: seq<MapNode<K, V>>, j: nat, l: nat)
    requires 0 < j < |chain| && l < |chain| - 1
    ensures NodeAt(chain[..j] + chain[j + 1..], l + 1) == NodeAt(chain, if l < j - 1 then l + 1 else l + 2)
  {
  }

  lemma FromLinks<K, V>(i: nat, chain': seq<MapNode<K, V>>, head: MapNode?<K, V>, pairs': Pairs<K, V>,
                        chain: seq<MapNode<K, V>>, j: nat)
    requires 0 < j < |chain| && chain' == chain[..j] + chain[j + 1..] && head == NodeAt(chain, 0)
    requires |chain'| == |pairs'| && forall l | 0 <= l < |chain'| :: NodeHolds(i, chain', l, pairs')
    ensures ChainOk(i, chain', head, pairs')
  {
    forall l | 0 <= l < |chain'|
      ensures chain'[l].home == i && chain'[l].key == pairs'[l].0 && chain'[l].value == pairs'[l].1
      ensures chain'[l].next == NodeAt(chain', l + 1)
    {
      assert NodeHolds(i, chain', l, pairs');
    }
  }

  lemma DistinctNodes<K, V>(i: nat, chain: seq<MapNode<K, V>>, head: MapNode?<K, V>, pairs: Pairs<K, V>)
    requires ChainOk(i, chain, head, pairs) && DistinctKeys(pairs)
    ensures forall j, l | 0 <= j < l < |chain| :: chain[j] != chain[l]
  {
  }

  // ---------- the map ----------

  class HashMap<K(==, !new), V> {
    const hash: K -> nat
    var numElements: nat
    var numNodes: nat
    var nodes: array<MapNode?<K, V>>
    /** The mapping the table stands for, and its chains as nodes and as pairs. */
    ghost var M: map<K, V>
    ghost var chains: seq<seq<MapNode<K, V>>>
    ghost var buckets: seq<Pairs<K, V>>
    ghost var Repr: set<object>

    /** Everything but the load bound. */
    ghost predicate Linked()
      reads this, Repr
      ensures Linked() ==> this in Repr && numNodes > 0 && numElements == |M|
    {
      Tied() && numElements == |M| && Represents(hash, buckets, M)
    }

    /** Each chain of nodes holds the pairs of its bucket. */
    ghost predicate Tied()
      reads this, Repr
      ensures Tied() ==> this in Repr
    {
      && this in Repr && nodes in Repr
      && nodes.Length == numNodes == |chains| == |buckets|
      && forall i | 0 <= i < numNodes ::
           (forall j | 0 <= j < |chains[i]| :: chains[i][j] in Repr) && ChainOk(i, chains[i], nodes[i], buckets[i])
    }

    /** At most six tenths of a key per chain. */
    predicate WithinLoad()
      reads this
    {
      10 * numElements <= 6 * numNodes
    }

    ghost predicate Valid()
      reads this, Repr
      ensures Valid() ==> Linked() && WithinLoad()
    {
      Linked() && WithinLoad()
    }

    constructor (hash: K -> nat, n: nat)
      requires n > 0
      ensures Valid() && fresh(Repr) && M == map[] && this.hash == hash
    {
      this.hash := hash;
      numElements, numNodes := 0, n;
      var table := new MapNode?<K, V>[n](_ => null);
      nodes := table;
      M := map[];
      chains := seq(n, _ => []);
      buckets := seq(n, _ => []);
      Repr := {this, table};
    }

    method NodeFromKey(k: K) returns (node: MapNode?<K, V>)
      requires Linked()
      ensures (node != null) == (k in M)
      ensures node != null ==> node.value == M[k]
      ensures node != null ==> var b := Bucket(hash(k), numNodes); Find(buckets[b], k) >= 0 && node == chains[b][Find(buckets[b], k)]
    {
      hide Bucket, Find, Represents;
      Lookup(hash, buckets, M, k);
      var b := Bucket(hash(k), numNodes);
      RepresentsDistinct(hash, buckets, M, b);
      var _, cur := Walk(nodes[b], k, b, chains[b], buckets[b]);
      node := cur;
    }

    method ContainsKey(k: K) returns (b: bool)
      requires Linked()
      ensures b == (k in M)
    {
      var node := NodeFromKey(k);
      b := node != null;
    }

    method Get(k: K) returns (v: V)
      requires Linked() && k in M
      ensures v == M[k]
    {
      var node := NodeFromKey(k);
      v := node.value;
    }

    /** Puts a pair at the front of its chain, or changes the value of a key already there. */
    method PutUnchecked(k: K, v: V)
      requires Linked()
      modifies Repr
      ensures Linked() && fresh(Repr - old(Repr)) && numNodes == old(numNodes)
      ensures M == old(M)[k := v]
    {
      var found := ContainsKey(k);
      if found {
        ChangeValue(k, v);
      } else {
        InsertFront(k, v);
      }
    }

    method ChangeValue(k: K, v: V)
      requires Linked() && k in M
      modifies this, Repr
      ensures Linked() && Repr == old(Repr) && numNodes == old(numNodes)
      ensures M == old(M)[k := v]
    {
      hide Bucket, Find, Represents, ChainOk;
      var node := NodeFromKey(k);
      ghost var b := Bucket(hash(k), numNodes);
      ghost var j := Find(buckets[b], k);
      Lookup(hash, buckets, M, k);
      RepresentsUpdate(hash, buckets, M, k, v, j);
      RepresentsDistinct(hash, buckets, M, b);
      NodesOf(b, chains[b], nodes[b], buckets[b]);
      forall i | 0 <= i < numNodes ensures i != b ==> node !in chains[i] {
        NodesOf(i, chains[i], nodes[i], buckets[i]);
      }
      assert M[k := v].Keys == M.Keys;
      SetValue(node, v, j, b, chains[b], nodes[b], buckets[b]);
      M := M[k := v];
      buckets := buckets[b := buckets[b][j := (k, v)]];
    }

    method InsertFront(k: K, v: V)
      requires Linked() && k !in M
      modifies this, nodes
      ensures Linked() && fresh(Repr - old(Repr)) && numNodes == old(numNodes)
      ensures M == old(M)[k := v]
    {
      hide Bucket, Find, Represents, ChainOk;
      RepresentsInsert(hash, buckets, M, k, v);
      var b := Bucket(hash(k), numNodes);
      var node := PushFront(nodes[b], k, v, b, chains[b], buckets[b]);
      nodes[b] := node;
      numElements := numElements + 1;
      M := M[k := v];
      Repr := Repr + {node};
      chains := chains[b := [node] + chains[b]];
      buckets := buckets[b := [(k, v)] + buckets[b]];
    }

    method Remove(k: K) returns (v: V)
      requires Valid() && k in M
      modifies Repr
      ensures Valid() && Repr == old(Repr) && numNodes == old(numNodes)
      ensures v == old(M[k]) && M == old(M) - {k}
    {
      hide Bucket, Find, Represents, ChainOk;
      var b := Bucket(hash(k), numNodes);
      Lookup(hash, buckets, M, k);
      RepresentsDistinct(hash, buckets, M, b);
      var prev, cur := Walk(nodes[b], k, b, chains[b], buckets[b]);
      NodesOf(b, chains[b], nodes[b], buckets[b]);
      v := cur.value;
      ghost var j := Find(buckets[b], k);
      RepresentsRemove(hash, buckets, M, k, j);
      assert (M - {k}).Keys == M.Keys - {k};
      Detach(b, prev, cur, j);
      M := M - {k};
      numElements := numElements - 1;
    }

    lemma OtherChains(b: nat)
      requires Tied() && b < numNodes
      ensures |chains[b]| == |buckets[b]|
      ensures forall i, l | 0 <= i < numNodes && i != b && 0 <= l < |chains[i]| :: chains[i][l] !in chains[b]
    {
      hide ChainOk;
      NodesOf(b, chains[b], nodes[b], buckets[b]);
      forall i | 0 <= i < numNodes && i != b ensures forall l | 0 <= l < |chains[i]| :: chains[i][l] !in chains[b] {
        NodesOf(i, chains[i], nodes[i], buckets[i]);
      }
    }

    /** Takes the node at position `j` out of chain `b`. */
    method Detach(b: nat, prev: MapNode?<K, V>, cur: MapNode<K, V>, ghost j: nat)
      requires Tied() && b < numNodes && DistinctKeys(buckets[b])
      requires j < |chains[b]| && cur == chains[b][j] && prev == if j == 0 then null else chains[b][j - 1]
      modifies Repr
      ensures Tied() && Repr == old(Repr) && numNodes == old(numNodes) && numElements == old(numElements)
      ensures |old(buckets)| == numNodes && j < |old(buckets)[b]| && M == old(M)
      ensures buckets == old(buckets)[b := old(buckets)[b][..j] + old(buckets)[b][j + 1..]]
    {
      hide ChainOk;
      OtherChains(b);
      var head := Unlink(nodes[b], prev, cur, j, b, chains[b], buckets[b]);
      assert forall i | 0 <= i < numNodes && i != b :: ChainOk(i, chains[i], nodes[i], buckets[i]);
      nodes[b] := head;
      chains := chains[b := chains[b][..j] + chains[b][j + 1..]];
      buckets := buckets[b := buckets[b][..j] + buckets[b][j + 1..]];
    }

    /** Puts a pair; when the table gets more than six tenths full, it doubles. */
    method Put(k: K, v: V)
      requires Valid()
      modifies Repr
      ensures Valid() && fresh(Repr - old(Repr))
      ensures M == old(M)[k := v]
      ensures numNodes == if 10 * |M| <= 6 * old(numNodes) then old(numNodes) else 2 * old(numNodes)
    {
      hide Represents, ChainOk;
      var found := ContainsKey(k);
      if found {
        ChangeValue(k, v);
      } else {
        InsertFront(k, v);
        CheckLoadFactor();
      }
    }

    method CheckLoadFactor()
      requires Linked() && 10 * (numElements - 1) <= 6 * numNodes
      modifies Repr
      ensures Valid() && fresh(Repr - old(Repr)) && M == old(M)
      ensures numNodes == if 10 * |M| <= 6 * old(numNodes) then old(numNodes) else 2 * old(numNodes)
    {
      hide Represents, ChainOk;
      if !WithinLoad() {
        Rehash(numNodes * 2);
      }
    }

    /**
     Moves every pair to a bigger table. The check that each put makes on the
     way finds the new table within its load, so rehashing never nests.
     */
    method Rehash(newNumNodes: nat)
      requires Linked() && newNumNodes > 0 && 10 * numElements <= 6 * newNumNodes
      modifies Repr
      ensures Valid() && fresh(Repr - old(Repr)) && M == old(M) && numNodes == newNumNodes
    {
      hide Bucket, Find, Represents, ChainOk;
      var oldNodes, oldNumNodes := nodes, numNodes;
      ghost var all, olds := M, chains;
      ghost var pairs: seq<Pairs<K, V>> := buckets;
      assert oldNodes.Length == |olds| == |pairs| == oldNumNodes && Represents(hash, pairs, all);
      assert forall h | 0 <= h < oldNumNodes :: ChainOk(h, olds[h], oldNodes[h], pairs[h]);
      assert forall h, j | 0 <= h < oldNumNodes && 0 <= j < |olds[h]| :: olds[h][j] in Repr;
      hide Linked;
      Reset(newNumNodes);
      for i := 0 to oldNumNodes
        invariant Linked() && WithinLoad() && numNodes == newNumNodes && fresh(Repr - {this})
        invariant Within(M, all)
        invariant AllKeysIn(pairs[..i], M.Keys)
        invariant forall h | 0 <= h < oldNumNodes :: ChainOk(h, olds[h], oldNodes[h], pairs[h])
        invariant forall h, j | 0 <= h < oldNumNodes && 0 <= j < |olds[h]| :: olds[h][j] !in Repr
      {
        HeldBy(hash, pairs, all, i);
        ghost var before := M.Keys;
        Reinsert(oldNodes[i], i, olds[i], pairs[i], all);
        AllKeysInNext(pairs, i, before, M.Keys);
      }
      forall k <- all ensures k in M {
        Lookup(hash, pairs, all, k);
        assert KeysIn(pairs[..oldNumNodes][Bucket(hash(k), oldNumNodes)], M.Keys);
      }
    }

    /** Starts over with an empty table of the given size. */
    method Reset(newNumNodes: nat)
      requires newNumNodes > 0
      modifies this
      ensures Linked() && numNodes == newNumNodes && M == map[] && WithinLoad()
      ensures fresh(nodes) && Repr == {this, nodes}
    {
      hide Bucket, Find, Represents, ChainOk;
      var table := new MapNode?<K, V>[newNumNodes](_ => null);
      nodes, numNodes, numElements := table, newNumNodes, 0;
      M, Repr := map[], {this, table};
      chains, buckets := seq(newNumNodes, _ => []), seq(newNumNodes, _ => []);
      NothingRepresented<K, V>(hash, newNumNodes);
      EmptyTable(table, newNumNodes, chains, buckets);
    }

    /** Puts the pairs of one chain of the old table into the new one. */
    method Reinsert(head: MapNode?<K, V>, ghost i: nat, ghost chain: seq<MapNode<K, V>>, ghost pairs: Pairs<K, V>,
                    ghost all: map<K, V>)
      requires Linked() && ChainOk(i, chain, head, pairs) && forall j | 0 <= j < |chain| :: chain[j] !in Repr
      requires forall j | 0 <= j < |pairs| :: pairs[j].0 in all && pairs[j].1 == all[pairs[j].0]
      requires Within(M, all)
      requires 10 * |all| <= 6 * numNodes && WithinLoad()
      modifies Repr
      ensures Linked() && WithinLoad() && numNodes == old(numNodes) && fresh(Repr - old(Repr))
      ensures old(M).Keys <= M.Keys && Within(M, all)
      ensures KeysIn(pairs, M.Keys)
    {
      hide Bucket, Find, Represents, Linked, KeysIn, Within;
      assert KeysIn(pairs[..0], M.Keys) by {
        NoKeysIn(pairs, M.Keys);
      }
      var cur := head;
      ghost var j := 0;
      while cur != null
        invariant j <= |chain| && cur == NodeAt(chain, j)
        invariant forall l | 0 <= l < |chain| :: chain[l] !in Repr
        invariant Linked() && WithinLoad() && numNodes == old(numNodes) && fresh(Repr - old(Repr))
        invariant ChainOk(i, chain, head, pairs)
        invariant old(M).Keys <= M.Keys && Within(M, all)
        invariant KeysIn(pairs[..j], M.Keys)
        decreases |chain| - j
      {
        WithinPut(M, all, pairs[j].0);
        KeysInNext(pairs, j, M.Keys, M.Keys + {pairs[j].0});
        PutUnchecked(cur.key, cur.value);
        KeysBound(M, all);
        assert WithinLoad();
        cur := cur.next;
        j := j + 1;
      }
      assert pairs[..j] == pairs;
    }

    /** The keys, chain by chain. */
    method Keys() returns (ks: seq<K>)
      requires Valid()
      ensures ks == Firsts(Flattened(buckets))
    {
      hide Bucket, Find, Represents, ChainOk;
      ks := [];
      for i := 0 to numNodes
        invariant ks == Firsts(Flattened(buckets[..i]))
      {
        var more := ChainKeys(nodes[i], i, chains[i], buckets[i]);
        ks := ks + more;
        assert buckets[..i + 1][..i] == buckets[..i];
      }
      assert buckets[..numNodes] == buckets;
    }

    /** The values, in the order of the keys. */
    method Values() returns (vs: seq<V>)
      requires Valid()
      ensures vs == Seconds(Flattened(buckets))
    {
      hide Bucket, Find, Represents, ChainOk;
      vs := [];
      for i := 0 to numNodes
        invariant vs == Seconds(Flattened(buckets[..i]))
      {
        var more := ChainValues(nodes[i], i, chains[i], buckets[i]);
        vs := vs + more;
        assert buckets[..i + 1][..i] == buckets[..i];
      }
      assert buckets[..numNodes] == buckets;
    }
  }

  method ChainKeys<K, V>(head: MapNode?<K, V>, ghost i: nat, ghost chain: seq<MapNode<K, V>>, ghost pairs: Pairs<K, V>)
    returns (ks: seq<K>)
    requires ChainOk(i, chain, head, pairs)
    ensures ks == Firsts(pairs)
  {
    var cur := head;
    ks := [];
    while cur != null
      invariant |ks| <= |chain| && cur == NodeAt(chain, |ks|) && ks == Firsts(pairs[..|ks|])
      decreases |chain| - |ks|
    {
      ks := ks + [cur.key];
      cur := cur.next;
    }
    assert pairs[..|ks|] == pairs;
  }

  method ChainValues<K, V>(head: MapNode?<K, V>, ghost i: nat, ghost chain: seq<MapNode<K, V>>, ghost pairs: Pairs<K, V>)
    returns (vs: seq<V>)
    requires ChainOk(i, chain, head, pairs)
    ensures vs == Seconds(pairs)
  {
    var cur := head;
    vs := [];
    while cur != null
      invariant |vs| <= |chain| && cur == NodeAt(chain, |vs|) && vs == Seconds(pairs[..|vs|])
      decreases |chain| - |vs|
    {
      vs := vs + [cur.value];
      cur := cur.next;
    }
    assert pairs[..|vs|] == pairs;
  }

  ghost predicate Within<K, V>(m: map<K, V>, all: map<K, V>) {
    m.Keys <= all.Keys && forall k <- m :: m[k] == all[k]
  }

  lemma WithinPut<K, V>(m: map<K, V>, all: map<K, V>, k: K)
    requires Within(m, all) && k in all
    ensures Within(m[k := all[k]], all) && m[k := all[k]].Keys == m.Keys + {k}
  {
  }

  ghost predicate KeysIn<K, V>(pairs: Pairs<K, V>, keys: set<K>) {
    forall j | 0 <= j < |pairs| :: pairs[j].0 in keys
  }

  ghost predicate AllKeysIn<K, V>(buckets: seq<Pairs<K, V>>, keys: set<K>) {
    forall h | 0 <= h < |buckets| :: KeysIn(buckets[h], keys)
  }

  lemma NoKeysIn<K, V>(pairs: Pairs<K, V>, keys: set<K>)
    ensures KeysIn(pairs[..0], keys)
  {
  }

  lemma KeysInNext<K, V>(pairs: Pairs<K, V>, j: nat, before: set<K>, keys: set<K>)
    requires j < |pairs| && KeysIn(pairs[..j], before) && keys == before + {pairs[j].0}
    ensures KeysIn(pairs[..j + 1], keys)
  {
    var more := pairs[..j + 1];
    forall l | 0 <= l < |more| ensures more[l].0 in keys {
      assert l < j ==> pairs[..j][l].0 in before;
    }
  }

  lemma AllKeysInNext<K, V>(buckets: seq<Pairs<K, V>>, i: nat, before: set<K>, keys: set<K>)
    requires i < |buckets| && AllKeysIn(buckets[..i], before) && before <= keys && KeysIn(buckets[i], keys)
    ensures AllKeysIn(buckets[..i + 1], keys)
  {
    var more := buckets[..i + 1];
    forall h | 0 <= h < |more| ensures KeysIn(more[h], keys) {
      assert h < i ==> KeysIn(buckets[..i][h], before);
    }
  }

  lemma KeysBound<K, V>(m: map<K, V>, all: map<K, V>)
    requires Within(m, all)
    ensures |m| <= |all|
  {
    SubsetSize(m.Keys, all.Keys);
  }

  lemma {:induction false} SubsetSize<T>(a: set<T>, b: set<T>)
    requires a <= b
    ensures |a| <= |b|
  {
    if a != {} {
      var x :| x in a;
      SubsetSize(a - {x}, b - {x});
    }
  }

  lemma NothingRepresented<K(!new), V>(hash: K -> nat, n: nat)
    requires n > 0
    ensures var none: map<K, V> := map[]; Represents(hash, seq(n, _ => []), none)
  {
    var none: map<K, V> := map[];
    forall i | 0 <= i < n ensures ChainHolds(hash, [], i, n, none) {
    }
  }

  lemma EmptyTable<K, V>(table: array<MapNode?<K, V>>, n: nat, chains: seq<seq<MapNode<K, V>>>, buckets: seq<Pairs<K, V>>)
    requires table.Length == |chains| == |buckets| == n
    requires forall i | 0 <= i < n :: table[i] == null && chains[i] == [] && buckets[i] == []
    ensures forall i | 0 <= i < n :: ChainOk(i, chains[i], table[i], buckets[i])
  {
  }

  lemma HeldBy<K(!new), V>(hash: K -> nat, buckets: seq<Pairs<K, V>>, m: map<K, V>, i: nat)
    requires Represents(hash, buckets, m) && i < |buckets|
    ensures forall j | 0 <= j < |buckets[i]| :: buckets[i][j].0 in m && m[buckets[i][j].0] == buckets[i][j].1
  {
    assert ChainHolds(hash, buckets[i], i, |buckets|, m);
  }

  // ---------- keys and values ----------

  function Flattened<K, V>(buckets: seq<Pairs<K, V>>): Pairs<K, V> {
    if buckets == [] then [] else Flattened(buckets[..|buckets| - 1]) + buckets[|buckets| - 1]
  }

  function Firsts<K, V>(pairs: Pairs<K, V>): seq<K> {
    seq(|pairs|, i requires 0 <= i < |pairs| => pairs[i].0)
  }

  function Seconds<K, V>(pairs: Pairs<K, V>): seq<V> {
    seq(|pairs|, i requires 0 <= i < |pairs| => pairs[i].1)
  }

  /** The first `c` chains hold exactly the keys that hash below `c`, each once and with its value. */
  lemma {:induction false} FlattenedHolds<K(!new), V>(hash: K -> nat, buckets: seq<Pairs<K, V>>, m: map<K, V>, c: nat)
    requires Represents(hash, buckets, m) && c <= |buckets|
    ensures DistinctKeys(Flattened(buckets[..c]))
    ensures forall j | 0 <= j < |Flattened(buckets[..c])| ::
              var p := Flattened(buckets[..c])[j];
              p.0 in m && m[p.0] == p.1 && Bucket(hash(p.0), |buckets|) < c
    ensures forall k <- m | Bucket(hash(k), |buckets|) < c :: k in Firsts(Flattened(buckets[..c]))
  {
    hide Bucket, Find, Represents;
    if c > 0 {
      FlattenedHolds(hash, buckets, m, c - 1);
      var before, last := Flattened(buckets[..c - 1]), buckets[c - 1];
      var all := Flattened(buckets[..c]);
      assert buckets[..c][..c - 1] == buckets[..c - 1];
      assert all == before + last;
      ChainOf(hash, buckets, m, c - 1);
      forall k <- m | Bucket(hash(k), |buckets|) < c ensures k in Firsts(all) {
        if Bucket(hash(k), |buckets|) < c - 1 {
          var j :| 0 <= j < |before| && Firsts(before)[j] == k;
          assert Firsts(all)[j] == k;
        } else {
          Lookup(hash, buckets, m, k);
          var j := Find(last, k);
          assert Firsts(all)[|before| + j] == k;
        }
      }
    }
  }

  lemma ChainOf<K(!new), V>(hash: K -> nat, buckets: seq<Pairs<K, V>>, m: map<K, V>, i: nat)
    requires Represents(hash, buckets, m) && i < |buckets|
    ensures ChainHolds(hash, buckets[i], i, |buckets|, m)
  {
  }

  /**
   `keys()` lists every key of the map once, and `values()` lists the value of
   the key at the same position.
   */
  lemma KeysAndValues<K(!new), V>(hash: K -> nat, buckets: seq<Pairs<K, V>>, m: map<K, V>)
    requires Represents(hash, buckets, m)
    ensures var ks, vs := Firsts(Flattened(buckets)), Seconds(Flattened(buckets));
            && (forall i, j | 0 <= i < j < |ks| :: ks[i] != ks[j])
            && (forall k :: k in ks <==> k in m)
            && |ks| == |vs| == |m| && forall i | 0 <= i < |ks| :: vs[i] == m[ks[i]]
  {
    hide Bucket, Represents;
    FlattenedHolds(hash, buckets, m, |buckets|);
    assert buckets[..|buckets|] == buckets;
    var ks := Firsts(Flattened(buckets));
    var keys := set k | k in ks;
    assert keys == m.Keys;
    DistinctSize(ks);
  }

  lemma {:induction false} DistinctSize<T>(s: seq<T>)
    requires forall i, j | 0 <= i < j < |s| :: s[i] != s[j]
    ensures |set x | x in s| == |s|
  {
    if s != [] {
      var rest, last := s[..|s| - 1], s[|s| - 1];
      DistinctSize(rest);
      assert (set x | x in s) == (set x | x in rest) + {last};
    }
  }

  lemma RepresentsDistinct<K(!new), V>(hash: K -> nat, buckets: seq<Pairs<K, V>>, m: map<K, V>, i: nat)
    requires Represents(hash, buckets, m) && i < |buckets|
    ensures DistinctKeys(buckets[i])
  {
    assert ChainHolds(hash, buckets[i], i, |buckets|, m);
  }
}
