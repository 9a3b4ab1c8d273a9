/** Whole runs of the collaborator search on all nodes. */
module LinusRun {
  import opened Params
  import opened Messages
  import opened Wire
  import opened Layout
  import opened Frames
  import opened LinusSets
  import opened LinusSpec
  import opened LinusMerge
  import opened Linus

  ghost function AllRepr(nodes: seq<LinusNode>): set<object> {
    set n, o | 0 <= n < |nodes| && o in nodes[n].Repr() :: o
  }

  /** One object per node, none sharing anything with another. */
  ghost predicate Apart(nodes: seq<LinusNode>) {
    && |nodes| == NUM_NODES
    && (forall n | 0 <= n < |nodes| :: nodes[n].me == n)
    && (forall m, n | 0 <= m < n < |nodes| :: nodes[m].Repr() !! nodes[n].Repr())
  }

  /** Node `n` is in order, with the given projects and users marked. */
  ghost predicate NodeHas(node: LinusNode, d: Data, types: seq<char>, p: set<int>, u: set<int>)
    reads node.Repr()
  {
    node.Valid(d, types) && node.pSet.View() == p && node.uSet.View() == u
  }

  /** The sets share nothing with the nodes. */
  ghost predicate Outside(sets: seq<BitSet>, nodes: seq<LinusNode>) {
    forall i, n | 0 <= i < |sets| && 0 <= n < |nodes| ::
      sets[i] !in nodes[n].Repr() && sets[i].vals !in nodes[n].Repr()
  }

  lemma ReprInAll(nodes: seq<LinusNode>, n: nat)
    requires n < |nodes|
    ensures nodes[n].Repr() <= AllRepr(nodes)
  {
    hide LinusNode.Repr;
  }

  /** Every node fetches the changes of the stage before into a set of its own. */
  method ReceiveDeltas(stage: nat, users: nat, kv: Stores, ghost frame: seq<Row>, ghost delta: set<int>)
    returns (sets: seq<BitSet>)
    requires HoldsSet(kv.entries, DeltaKey("users-", stage, 0), frame, Numbers(frame))
    requires delta == Below(Numbers(frame), users)
    ensures |sets| == NUM_NODES && Separate(sets, users)
    ensures forall n | 0 <= n < NUM_NODES :: fresh(sets[n]) && fresh(sets[n].vals) && sets[n].View() == delta
  {
    hide HoldsSet, DeltaKey, BitSet.View, BitSet.Valid, Numbers, Below;
    var name := "users-";
    assert '\0' !in name;
    sets := [];
    for n := 0 to NUM_NODES
      invariant |sets| == n && Separate(sets, users)
      invariant forall m | 0 <= m < n :: fresh(sets[m]) && fresh(sets[m].vals) && sets[m].View() == delta
    {
      var s := new BitSet(users);
      var key := BuildDeltaKey(name, stage, 0);
      ReceiveHeld(key, kv, s, n, frame, Numbers(frame));
      sets := sets + [s];
    }
  }

  method TagOneProjects(node: LinusNode, delta: BitSet, kv: Stores, ghost d: Data, ghost types: seq<char>,
                        ghost ds: set<int>, ghost p: set<int>, ghost u: set<int>) returns (f: BitSet)
    requires FrameFits(types, d.rows) && NodeHas(node, d, types, p, u) && Holds(kv.entries, d.key, types, d.rows) && delta.View() == ds
    requires delta !in node.Repr() && delta.vals !in node.Repr() && node.me < NUM_NODES
    modifies node.Repr()
    ensures kv.entries == old(kv.entries) && fresh(f) && fresh(f.vals) && f.Valid() && f.vals.Length == d.projects
    ensures f.View() == TouchedShares(d, ds, p)[node.me] && NodeHas(node, d, types, p + f.View(), u)
  {
    hide BitSet.View, BitSet.Valid, Holds, Touched, LocalRows, LinusNode.Valid;
    f := node.TagProjects(delta, kv, d, types);
  }

  method TagOneUsers(node: LinusNode, projects: BitSet, kv: Stores, ghost d: Data, ghost types: seq<char>,
                     ghost ps: set<int>, ghost p: set<int>, ghost u: set<int>) returns (f: BitSet)
    requires FrameFits(types, d.rows) && NodeHas(node, d, types, p, u) && Holds(kv.entries, d.key, types, d.rows) && projects.View() == ps
    requires projects !in node.Repr() && projects.vals !in node.Repr() && node.me < NUM_NODES
    modifies node.Repr()
    ensures kv.entries == old(kv.entries) && fresh(f) && fresh(f.vals) && f.Valid() && f.vals.Length == d.users
    ensures f.View() == AuthorShares(d, ps, u)[node.me] && NodeHas(node, d, types, p, u + f.View())
  {
    hide BitSet.View, BitSet.Valid, Holds, Authors, LocalRows, LinusNode.Valid;
    f := node.TagUsers(projects, kv, d, types);
  }

  method TagAllProjects(nodes: seq<LinusNode>, deltas: seq<BitSet>, kv: Stores, ghost d: Data, ghost types: seq<char>,
                        ghost delta: set<int>, ghost p: set<int>, ghost u: set<int>) returns (found: seq<BitSet>)
    requires Apart(nodes) && FrameFits(types, d.rows) && Holds(kv.entries, d.key, types, d.rows)
    requires forall n | 0 <= n < NUM_NODES :: NodeHas(nodes[n], d, types, p, u)
    requires |deltas| == NUM_NODES && Outside(deltas, nodes)
    requires forall n | 0 <= n < NUM_NODES :: deltas[n].View() == delta
    modifies AllRepr(nodes)
    ensures |found| == NUM_NODES && Separate(found, d.projects) && kv.entries == old(kv.entries)
    ensures forall n | 0 <= n < NUM_NODES ::
              fresh(found[n]) && fresh(found[n].vals) && found[n].View() == TouchedShares(d, delta, p)[n]
    ensures forall n | 0 <= n < NUM_NODES :: NodeHas(nodes[n], d, types, p + found[n].View(), u)
  {
    hide BitSet.View, BitSet.Valid, Holds, FrameFits, NodeHas, TouchedShares, AllRepr, Seen;
    found := [];
    for n := 0 to NUM_NODES
      invariant |found| == n && Separate(found, d.projects) && kv.entries == old(kv.entries)
      invariant forall m | 0 <= m < NUM_NODES :: deltas[m].View() == delta
      invariant forall m | 0 <= m < n ::
                  fresh(found[m]) && fresh(found[m].vals) && found[m].View() == TouchedShares(d, delta, p)[m]
      invariant forall m | 0 <= m < n :: NodeHas(nodes[m], d, types, p + found[m].View(), u)
      invariant forall m | n <= m < NUM_NODES :: NodeHas(nodes[m], d, types, p, u)
    {
      ReprInAll(nodes, n);
      var f := TagOneProjects(nodes[n], deltas[n], kv, d, types, delta, p, u);
      found := found + [f];
    }
  }

  method TagAllUsers(nodes: seq<LinusNode>, projects: seq<BitSet>, kv: Stores, ghost d: Data, ghost types: seq<char>,
                     ghost ps: set<int>, ghost p: set<int>, ghost u: set<int>) returns (found: seq<BitSet>)
    requires Apart(nodes) && FrameFits(types, d.rows) && Holds(kv.entries, d.key, types, d.rows)
    requires forall n | 0 <= n < NUM_NODES :: NodeHas(nodes[n], d, types, p, u)
    requires |projects| == NUM_NODES && Outside(projects, nodes)
    requires forall n | 0 <= n < NUM_NODES :: projects[n].View() == ps
    modifies AllRepr(nodes)
    ensures |found| == NUM_NODES && Separate(found, d.users) && kv.entries == old(kv.entries)
    ensures forall n | 0 <= n < NUM_NODES ::
              fresh(found[n]) && fresh(found[n].vals) && found[n].View() == AuthorShares(d, ps, u)[n]
    ensures forall n | 0 <= n < NUM_NODES :: NodeHas(nodes[n], d, types, p, u + found[n].View())
  {
    hide BitSet.View, BitSet.Valid, Holds, FrameFits, NodeHas, AuthorShares, AllRepr, Seen;
    found := [];
    for n := 0 to NUM_NODES
      invariant |found| == n && Separate(found, d.users) && kv.entries == old(kv.entries)
      invariant forall m | 0 <= m < NUM_NODES :: projects[m].View() == ps
      invariant forall m | 0 <= m < n ::
                  fresh(found[m]) && fresh(found[m].vals) && found[m].View() == AuthorShares(d, ps, u)[m]
      invariant forall m | 0 <= m < n :: NodeHas(nodes[m], d, types, p, u + found[m].View())
      invariant forall m | n <= m < NUM_NODES :: NodeHas(nodes[m], d, types, p, u)
    {
      ReprInAll(nodes, n);
      var f := TagOneUsers(nodes[n], projects[n], kv, d, types, ps, p, u);
      found := found + [f];
    }
  }

  method UnionOneProjects(node: LinusNode, merged: BitSet, ghost d: Data, ghost types: seq<char>,
                     ghost had: set<int>, ghost all: set<int>, ghost p: set<int>, ghost u: set<int>)
    requires merged.Valid() && merged.View() == all && merged.vals.Length == d.projects && had <= all
    requires merged !in node.Repr() && merged.vals !in node.Repr() && NodeHas(node, d, types, p + had, u)
    modifies node.Repr()
    ensures NodeHas(node, d, types, p + all, u)
  {
    hide BitSet.View, BitSet.Valid, LinusNode.Valid;
    node.AddProjects(merged, d, types, p, had, all);
  }

  /** Every node adds the merged new projects to its own, of which it had marked some already. */
  method UnionAllProjects(nodes: seq<LinusNode>, merged: seq<BitSet>, kv: Stores, ghost d: Data, ghost types: seq<char>,
                          ghost had: seq<set<int>>, ghost all: set<int>, ghost p: set<int>, ghost u: set<int>)
    requires Apart(nodes) && |had| == |merged| == NUM_NODES && Separate(merged, d.projects) && Outside(merged, nodes)
    requires forall n | 0 <= n < NUM_NODES :: had[n] <= all && merged[n].View() == all
    requires forall n | 0 <= n < NUM_NODES :: NodeHas(nodes[n], d, types, p + had[n], u)
    modifies AllRepr(nodes)
    ensures kv.entries == old(kv.entries)
    ensures forall n | 0 <= n < NUM_NODES :: NodeHas(nodes[n], d, types, p + all, u)
    ensures Separate(merged, d.projects) && forall n | 0 <= n < NUM_NODES :: merged[n].View() == all
  {
    hide BitSet.View, BitSet.Valid, AllRepr, NodeHas;
    for n := 0 to NUM_NODES
      invariant Separate(merged, d.projects) && kv.entries == old(kv.entries)
      invariant forall m | 0 <= m < NUM_NODES :: merged[m].View() == all
      invariant forall m | 0 <= m < n :: NodeHas(nodes[m], d, types, p + all, u)
      invariant forall m | n <= m < NUM_NODES :: NodeHas(nodes[m], d, types, p + had[m], u)
    {
      ReprInAll(nodes, n);
      assert had[n] <= all;
      UnionOneProjects(nodes[n], merged[n], d, types, had[n], all, p, u);
    }
  }

  method UnionOneUsers(node: LinusNode, merged: BitSet, ghost d: Data, ghost types: seq<char>,
                     ghost had: set<int>, ghost all: set<int>, ghost p: set<int>, ghost u: set<int>)
    requires merged.Valid() && merged.View() == all && merged.vals.Length == d.users && had <= all
    requires merged !in node.Repr() && merged.vals !in node.Repr() && NodeHas(node, d, types, p, u + had)
    modifies node.Repr()
    ensures NodeHas(node, d, types, p, u + all)
  {
    hide BitSet.View, BitSet.Valid, LinusNode.Valid;
    node.AddUsers(merged, d, types, u, had, all);
  }

  method UnionAllUsers(nodes: seq<LinusNode>, merged: seq<BitSet>, kv: Stores, ghost d: Data, ghost types: seq<char>,
                       ghost had: seq<set<int>>, ghost all: set<int>, ghost p: set<int>, ghost u: set<int>)
    requires Apart(nodes) && |had| == |merged| == NUM_NODES && Separate(merged, d.users) && Outside(merged, nodes)
    requires forall n | 0 <= n < NUM_NODES :: had[n] <= all && merged[n].View() == all
    requires forall n | 0 <= n < NUM_NODES :: NodeHas(nodes[n], d, types, p, u + had[n])
    modifies AllRepr(nodes)
    ensures kv.entries == old(kv.entries)
    ensures forall n | 0 <= n < NUM_NODES :: NodeHas(nodes[n], d, types, p, u + all)
  {
    hide BitSet.View, BitSet.Valid, AllRepr, NodeHas;
    for n := 0 to NUM_NODES
      invariant Separate(merged, d.users) && kv.entries == old(kv.entries)
      invariant forall m | 0 <= m < NUM_NODES :: merged[m].View() == all
      invariant forall m | 0 <= m < n :: NodeHas(nodes[m], d, types, p, u + all)
      invariant forall m | n <= m < NUM_NODES :: NodeHas(nodes[m], d, types, p, u + had[m])
    {
      ReprInAll(nodes, n);
      assert had[n] <= all;
      UnionOneUsers(nodes[n], merged[n], d, types, had[n], all, p, u);
    }
  }

  /** The nodes are in order after `k` stages, and the changes of the last stage are published. */
  ghost predicate AfterStages(nodes: seq<LinusNode>, kv: Stores, d: Data, types: seq<char>, linus: int, k: nat,
                              frame: seq<Row>)
    reads AllRepr(nodes), kv
  {
    && Apart(nodes) && FrameFits(types, d.rows) && Holds(kv.entries, d.key, types, d.rows)
    && HoldsSet(kv.entries, DeltaKey("users-", k, 0), frame, Numbers(frame))
    && DeltaAfter(Seen(d), linus, k) == Below(Numbers(frame), d.users)
    && forall n | 0 <= n < NUM_NODES ::
         ReprInAll(nodes, n); NodeHas(nodes[n], d, types, ProjectsAfter(Seen(d), linus, k), UsersAfter(Seen(d), linus, k))
  }

  /** Fetching leaves the nodes alone. */
  method ReceiveFor(nodes: seq<LinusNode>, stage: nat, users: nat, kv: Stores, ghost frame: seq<Row>, ghost delta: set<int>,
                    ghost d: Data, ghost types: seq<char>, ghost p: set<int>, ghost u: set<int>)
    returns (sets: seq<BitSet>)
    requires HoldsSet(kv.entries, DeltaKey("users-", stage, 0), frame, Numbers(frame))
    requires delta == Below(Numbers(frame), users)
    requires Apart(nodes) && forall n | 0 <= n < NUM_NODES :: NodeHas(nodes[n], d, types, p, u)
    ensures |sets| == NUM_NODES && Separate(sets, users) && Outside(sets, nodes)
    ensures forall n | 0 <= n < NUM_NODES :: sets[n].View() == delta
    ensures forall n | 0 <= n < NUM_NODES :: NodeHas(nodes[n], d, types, p, u)
  {
    hide HoldsSet, DeltaKey, BitSet.View, BitSet.Valid, NodeHas, Numbers, Below;
    sets := ReceiveDeltas(stage, users, kv, frame, delta);
    forall n | 0 <= n < NUM_NODES ensures NodeHas(nodes[n], d, types, p, u) {
      var node := nodes[n];
      assert old(NodeHas(node, d, types, p, u));
      assert forall o <- node.Repr() :: old(allocated(o)) && unchanged(o);
    }
  }

  /** Merging leaves the nodes alone. */
  method MergeFor(nodes: seq<LinusNode>, name: string, stage: nat, sets: seq<BitSet>, capacity: nat, kv: Stores,
                  ghost d: Data, ghost types: seq<char>, ghost ps: seq<set<int>>, ghost us: seq<set<int>>)
    returns (ghost frame: seq<Row>)
    requires |sets| == NUM_NODES && Separate(sets, capacity) && capacity <= INT_LIMIT && Outside(sets, nodes)
    requires IsPlain(name) && IsPlain(d.key.name)
    requires FrameFits(types, d.rows) && Holds(kv.entries, d.key, types, d.rows)
    requires Apart(nodes) && |ps| == |us| == NUM_NODES
    requires forall n | 0 <= n < NUM_NODES :: NodeHas(nodes[n], d, types, ps[n], us[n])
    modifies kv, Objects(sets)
    ensures Separate(sets, capacity) && Holds(kv.entries, d.key, types, d.rows)
    ensures forall i | 0 <= i < NUM_NODES :: sets[i].View() == UnionOf(old(Views(sets)))
    ensures HoldsSet(kv.entries, DeltaKey(name, stage, 0), frame, UnionOf(old(Views(sets))))
    ensures forall n | 0 <= n < NUM_NODES :: NodeHas(nodes[n], d, types, ps[n], us[n])
  {
    hide HoldsSet, DeltaKey, BitSet.View, BitSet.Valid, NodeHas, Holds, FrameFits, UnionOf, IsPlain;
    frame := Merge(name, stage, sets, capacity, kv, d, types);
    forall n | 0 <= n < NUM_NODES ensures NodeHas(nodes[n], d, types, ps[n], us[n]) {
      var node := nodes[n];
      assert old(NodeHas(node, d, types, ps[n], us[n]));
      assert forall o <- node.Repr() :: old(allocated(o)) && unchanged(o);
    }
  }

  /** The exchange after projects were marked: every node ends with the union of what was found. */
  method ExchangeProjects(nodes: seq<LinusNode>, found: seq<BitSet>, k: nat, kv: Stores, ghost d: Data, ghost types: seq<char>,
                          ghost had: seq<set<int>>, ghost all: set<int>, ghost p: set<int>, ghost u: set<int>, projects: nat)
    requires projects == d.projects <= INT_LIMIT && IsPlain(d.key.name)
    requires Apart(nodes) && FrameFits(types, d.rows) && Holds(kv.entries, d.key, types, d.rows)
    requires |found| == NUM_NODES && Separate(found, projects) && Outside(found, nodes)
    requires had == Views(found) && UnionOf(had) == all
    requires forall n | 0 <= n < NUM_NODES :: NodeHas(nodes[n], d, types, p + had[n], u)
    modifies kv, Objects(found), AllRepr(nodes)
    ensures Holds(kv.entries, d.key, types, d.rows) && Separate(found, projects)
    ensures forall n | 0 <= n < NUM_NODES :: found[n].View() == all && NodeHas(nodes[n], d, types, p + all, u)
  {
    hide BitSet.View, BitSet.Valid, Holds, HoldsSet, FrameFits, NodeHas, AllRepr, UnionOf, DeltaKey, IsPlain;
    var name := "projects-";
    PlainProjects();
    ghost var ps, us := Plus(p, had), Plus(u, seq(NUM_NODES, _ => {}));
    assert forall n | 0 <= n < NUM_NODES :: ps[n] == p + had[n] && us[n] == u;
    var _ := MergeFor(nodes, name, k, found, projects, kv, d, types, ps, us);
    PartsOfUnion(had);
    UnionAllProjects(nodes, found, kv, d, types, had, all, p, u);
  }

  lemma PlainProjects()
    ensures IsPlain("projects-") && IsPlain("users-")
  {
  }

  /** The part of a stage that marks projects; returns the merged new ones, one copy per node. */
  method StageProjects(nodes: seq<LinusNode>, k: nat, kv: Stores, ghost d: Data, ghost types: seq<char>,
                       ghost delta: set<int>, ghost frame: seq<Row>, ghost p: set<int>, ghost u: set<int>,
                       projects: nat, users: nat)
    returns (merged: seq<BitSet>)
    requires projects == d.projects <= INT_LIMIT && users == d.users && IsPlain(d.key.name)
    requires Apart(nodes) && FrameFits(types, d.rows) && Holds(kv.entries, d.key, types, d.rows)
    requires HoldsSet(kv.entries, DeltaKey("users-", k, 0), frame, Numbers(frame))
    requires delta == Below(Numbers(frame), users)
    requires forall n | 0 <= n < NUM_NODES :: NodeHas(nodes[n], d, types, p, u)
    modifies kv, AllRepr(nodes)
    ensures Holds(kv.entries, d.key, types, d.rows)
    ensures |merged| == NUM_NODES && Separate(merged, projects)
    ensures var newP := Touched(Seen(d).commits, delta, projects) - p;
            forall n | 0 <= n < NUM_NODES ::
              fresh(merged[n]) && fresh(merged[n].vals) && merged[n].View() == newP &&
              NodeHas(nodes[n], d, types, p + newP, u)
  {
    hide BitSet.View, BitSet.Valid, Holds, HoldsSet, FrameFits, NodeHas, TouchedShares, AllRepr, UnionOf, DeltaKey,
      Touched, Numbers, Below, Seen, IsPlain;
    var deltas := ReceiveFor(nodes, k, users, kv, frame, delta, d, types, p, u);
    merged := TagAllProjects(nodes, deltas, kv, d, types, delta, p, u);
    ghost var had := Views(merged);
    assert had == TouchedShares(d, delta, p);
    SharesAddUp(d, delta, p);
    ExchangeProjects(nodes, merged, k, kv, d, types, had, Touched(Seen(d).commits, delta, projects) - p, p, u, projects);
  }

  ghost function Plus(s: set<int>, more: seq<set<int>>): (all: seq<set<int>>)
    ensures |all| == |more| && forall n | 0 <= n < |more| :: all[n] == s + more[n]
  {
    seq(|more|, n requires 0 <= n < |more| => s + more[n])
  }

  /** The exchange after users were marked; publishes the union for the next stage. */
  method ExchangeUsers(nodes: seq<LinusNode>, found: seq<BitSet>, k: nat, kv: Stores, ghost d: Data, ghost types: seq<char>,
                       ghost had: seq<set<int>>, ghost all: set<int>, ghost p: set<int>, ghost u: set<int>, users: nat)
    returns (ghost frame: seq<Row>)
    requires users == d.users <= INT_LIMIT && IsPlain(d.key.name)
    requires Apart(nodes) && FrameFits(types, d.rows) && Holds(kv.entries, d.key, types, d.rows)
    requires |found| == NUM_NODES && Separate(found, users) && Outside(found, nodes)
    requires had == Views(found) && UnionOf(had) == all
    requires forall n | 0 <= n < NUM_NODES :: NodeHas(nodes[n], d, types, p, u + had[n])
    modifies kv, Objects(found), AllRepr(nodes)
    ensures Holds(kv.entries, d.key, types, d.rows)
    ensures HoldsSet(kv.entries, DeltaKey("users-", k + 1, 0), frame, all)
    ensures forall n | 0 <= n < NUM_NODES :: NodeHas(nodes[n], d, types, p, u + all)
  {
    hide BitSet.View, BitSet.Valid, Holds, HoldsSet, FrameFits, NodeHas, AllRepr, UnionOf, DeltaKey, IsPlain;
    var name := "users-";
    PlainProjects();
    ghost var ps, us := Plus(p, seq(NUM_NODES, _ => {})), Plus(u, had);
    assert forall n | 0 <= n < NUM_NODES :: ps[n] == p && us[n] == u + had[n];
    frame := MergeFor(nodes, name, k + 1, found, users, kv, d, types, ps, us);
    PartsOfUnion(had);
    UnionAllUsers(nodes, found, kv, d, types, had, all, p, u);
  }

  /** The part of a stage that marks users; publishes the merged new ones for the next stage. */
  method StageUsers(nodes: seq<LinusNode>, projectSets: seq<BitSet>, k: nat, kv: Stores, ghost d: Data, ghost types: seq<char>,
                    ghost newP: set<int>, ghost p: set<int>, ghost u: set<int>, users: nat)
    returns (ghost frame: seq<Row>)
    requires users == d.users <= INT_LIMIT && IsPlain(d.key.name)
    requires Apart(nodes) && FrameFits(types, d.rows) && Holds(kv.entries, d.key, types, d.rows)
    requires |projectSets| == NUM_NODES && Outside(projectSets, nodes)
    requires forall n | 0 <= n < NUM_NODES :: projectSets[n].View() == newP
    requires forall n | 0 <= n < NUM_NODES :: NodeHas(nodes[n], d, types, p, u)
    modifies kv, AllRepr(nodes)
    ensures Holds(kv.entries, d.key, types, d.rows)
    ensures var newU := Authors(Seen(d).commits, newP, users) - u;
            && HoldsSet(kv.entries, DeltaKey("users-", k + 1, 0), frame, newU)
            && forall n | 0 <= n < NUM_NODES :: NodeHas(nodes[n], d, types, p, u + newU)
  {
    hide BitSet.View, BitSet.Valid, Holds, HoldsSet, FrameFits, NodeHas, AuthorShares, AllRepr, UnionOf, DeltaKey, Authors,
      Seen, IsPlain;
    var merged := TagAllUsers(nodes, projectSets, kv, d, types, newP, p, u);
    ghost var had := Views(merged);
    assert had == AuthorShares(d, newP, u);
    SharesAddUp(d, newP, u);
    frame := ExchangeUsers(nodes, merged, k, kv, d, types, had, Authors(Seen(d).commits, newP, users) - u, p, u, users);
  }

  /** One stage: from the changes of the stage before to those of this one. */
  method Step(nodes: seq<LinusNode>, k: nat, kv: Stores, ghost d: Data, ghost types: seq<char>, ghost linus: int,
              ghost frame: seq<Row>, projects: nat, users: nat) returns (ghost frame': seq<Row>)
    requires projects == d.projects <= INT_LIMIT && users == d.users <= INT_LIMIT && IsPlain(d.key.name)
    requires AfterStages(nodes, kv, d, types, linus, k, frame)
    modifies kv, AllRepr(nodes)
    ensures AfterStages(nodes, kv, d, types, linus, k + 1, frame')
  {
    hide BitSet.View, BitSet.Valid, Holds, HoldsSet, FrameFits, NodeHas, AllRepr, DeltaKey, Touched, Authors,
      ProjectsAfter, UsersAfter, DeltaAfter, Numbers, Below;
    ghost var delta, p, u := DeltaAfter(Seen(d), linus, k), ProjectsAfter(Seen(d), linus, k), UsersAfter(Seen(d), linus, k);
    DeltaSuffices(Seen(d), linus, k);
    ghost var newP := Touched(Seen(d).commits, delta, projects) - p;
    var merged := StageProjects(nodes, k, kv, d, types, delta, frame, p, u, projects, users);
    frame' := StageUsers(nodes, merged, k, kv, d, types, newP, p + newP, u, users);
    DeltaInRange(d, linus, k + 1);
    BelowAll(DeltaAfter(Seen(d), linus, k + 1), users);
    SetNumbers(kv.entries, DeltaKey("users-", k + 1, 0), frame', DeltaAfter(Seen(d), linus, k + 1));
  }

  lemma SetNumbers(entries: map<Key, Blob>, k: Key, rows: seq<Row>, view: set<int>)
    requires HoldsSet(entries, k, rows, view)
    ensures Numbers(rows) == view
  {
  }

  /** Node 0 starts the search with a frame that holds only the number of Linus. */
  method PublishLinus(nodes: seq<LinusNode>, linus: int, kv: Stores, ghost d: Data, ghost types: seq<char>)
    returns (ghost frame: seq<Row>)
    requires -INT_LIMIT <= linus < INT_LIMIT && IsPlain(d.key.name)
    requires Apart(nodes) && FrameFits(types, d.rows) && Holds(kv.entries, d.key, types, d.rows)
    requires forall n | 0 <= n < NUM_NODES :: NodeHas(nodes[n], d, types, {}, {})
    modifies kv
    ensures AfterStages(nodes, kv, d, types, linus, 0, frame)
  {
    hide BitSet.View, BitSet.Valid, Holds, NodeHas, AllRepr, Publication, NumChunks, DeltaName, Numbers;
    var name := "users-";
    assert '\0' !in name;
    var key := BuildDeltaKey(name, 0, 0);
    ghost var before := kv.entries;
    LinusFrame(linus, d.users);
    var _ := DataFrame.FromScalar(key, kv, 'I', Int(linus), 0);
    frame := OneColumn([Int(linus)]);
    assert "I" == ['I'];
    PlainSurvives(before, d.key, types, d.rows, name, 0, 0, frame, 1);
    forall n | 0 <= n < NUM_NODES ensures NodeHas(nodes[n], d, types, {}, {}) {
      var node := nodes[n];
      assert old(NodeHas(node, d, types, {}, {}));
      assert forall o <- node.Repr() :: old(allocated(o)) && unchanged(o);
    }
  }

  lemma LinusFrame(linus: int, users: nat)
    requires -INT_LIMIT <= linus < INT_LIMIT
    ensures var rows := OneColumn([Int(linus)]);
            FrameFits("I", rows) && AllInts(rows) && Numbers(rows) == {linus}
    ensures Below({linus}, users) == if 0 <= linus < users then {linus} else {}
  {
    var rows: seq<Row> := OneColumn([Int(linus)]);
    assert rows[0][0].i == linus;
  }

  lemma DeltaInRange(d: Data, linus: int, k: nat)
    ensures forall x <- DeltaAfter(Seen(d), linus, k) :: 0 <= x < d.users
  {
  }

  /**
   The whole search: node 0 publishes Linus as the first change, then the
   stages follow. In the end all nodes hold the same sets, those of the plain
   recomputation, although only changes were processed and exchanged.
   */
  method Run(nodes: seq<LinusNode>, degrees: nat, linus: int, kv: Stores, ghost d: Data, ghost types: seq<char>,
             projects: nat, users: nat) returns (ghost frame: seq<Row>)
    requires projects == d.projects <= INT_LIMIT && users == d.users <= INT_LIMIT && IsPlain(d.key.name)
    requires -INT_LIMIT <= linus < INT_LIMIT
    requires Apart(nodes) && FrameFits(types, d.rows) && Holds(kv.entries, d.key, types, d.rows)
    requires forall n | 0 <= n < NUM_NODES :: NodeHas(nodes[n], d, types, {}, {})
    modifies kv, AllRepr(nodes)
    ensures forall n | 0 <= n < NUM_NODES ::
              nodes[n].pSet.View() == ProjectsAfter(Seen(d), linus, degrees) &&
              nodes[n].uSet.View() == UsersAfter(Seen(d), linus, degrees)
  {
    hide BitSet.View, BitSet.Valid, Holds, HoldsSet, FrameFits, DeltaKey, AllRepr;
    frame := PublishLinus(nodes, linus, kv, d, types);
    for k := 0 to degrees
      invariant AfterStages(nodes, kv, d, types, linus, k, frame)
    {
      frame := Step(nodes, k, kv, d, types, linus, frame, projects, users);
    }
  }
}
