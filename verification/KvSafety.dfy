/**
 What every reachable state of the protocol keeps: one sign of life for each
 waiting node and none for the others, and values that were really put.
 */
module KvSafety {
  import opened Params
  import opened Messages
  import opened KvProtocol
  import opened KvLoad

  /** `m` is the request the application of its sender waits on, at the node its key names. */
  predicate IsRequest(nodes: seq<Node>, j: nat, m: Message) {
    && m.Get? && m.key.node == j
    && m.sender < |nodes| && m.sender != j
    && nodes[m.sender].app == Waiting(m.key)
  }

  predicate GoodMessage(s: State, j: nat, m: Message)
    requires j < |s.nodes|
  {
    && m.target == j
    && (m.Put? ==> m.key.node == j && (m.key, m.value) in s.puts)
    && (m.Get? ==> IsRequest(s.nodes, j, m))
    && (m.Reply? ==> s.nodes[j].app == Waiting(m.key) && (m.key, m.value) in s.puts)
  }

  predicate GoodNode(s: State, j: nat)
    requires j < |s.nodes|
  {
    var node := s.nodes[j];
    && (forall m <- node.inbox :: GoodMessage(s, j, m))
    && (forall m <- node.repliers :: IsRequest(s.nodes, j, m))
    && (node.slot.Some? ==> node.app.Waiting? && (node.app.want, node.slot.value) in s.puts)
    && (forall k <- node.entries :: k.node == j && (k, node.entries[k]) in s.puts)
    && (forall k <- node.held :: (k, node.held[k]) in s.puts)
    && (node.app.Publishing? ==> forall p <- node.app.todo :: p.0.node < |s.nodes|)
    && (node.app.Waiting? ==> node.app.want.node < |s.nodes|)
  }

  /** A node has exactly one token while it waits and none otherwise. */
  predicate TokensOk(nodes: seq<Node>, n: nat)
    requires n < |nodes|
  {
    Load(Tokens(n), nodes) == if nodes[n].app.Waiting? then 1 else 0
  }

  ghost predicate AllGood(s: State) {
    forall j | 0 <= j < |s.nodes| :: GoodNode(s, j)
  }

  ghost predicate Inv(s: State) {
    && |s.nodes| == NUM_NODES
    && AllGood(s)
    && (forall n | 0 <= n < |s.nodes| :: TokensOk(s.nodes, n))
  }

  lemma {:induction false} EmptyLoad(w: Meter, nodes: seq<Node>, j: nat)
    requires j <= |nodes|
    requires forall i | 0 <= i < |nodes| :: nodes[i].inbox == [] && nodes[i].repliers == [] && nodes[i].slot == None
    ensures Load(w, nodes, j) == 0
    decreases |nodes| - j
  {
    if j < |nodes| {
      EmptyLoad(w, nodes, j + 1);
    }
  }

  lemma InitInv(s: State)
    requires Init(s)
    ensures Inv(s)
  {
    forall n | 0 <= n < |s.nodes| ensures TokensOk(s.nodes, n) {
      EmptyLoad(Tokens(n), s.nodes, 0);
    }
  }

  /** The slot is free whenever the servicer pops a reply: no value is ever overwritten. */
  lemma ReplyFindsSlotFree(s: State, n: nat)
    requires Inv(s) && n < |s.nodes| && s.nodes[n].inbox != [] && s.nodes[n].inbox[0].Reply?
    ensures s.nodes[n].slot.None?
  {
    var node := s.nodes[n];
    var w := Tokens(n);
    assert GoodNode(s, n) && TokensOk(s.nodes, n);
    assert node.inbox[0] in node.inbox && GoodMessage(s, n, node.inbox[0]);
    NodeLoadBound(w, s.nodes, n, 0);
    assert InboxLoad(w, n, node.inbox) >= InboxWeight(w, n, node.inbox[0]);
  }

  /** Replacing one node by a good one keeps all good, if no node stops waiting. */
  lemma ReplaceGood(s: State, j: nat, x: Node)
    requires AllGood(s) && j < |s.nodes|
    requires s.nodes[j].app.Waiting? ==> x.app == s.nodes[j].app
    requires GoodNode(s.(nodes := s.nodes[j := x]), j)
    ensures AllGood(s.(nodes := s.nodes[j := x]))
  {
    var s' := s.(nodes := s.nodes[j := x]);
    forall i | 0 <= i < |s.nodes| && i != j ensures GoodNode(s', i) {
      assert GoodNode(s, i);
      forall m <- s.nodes[i].inbox ensures GoodMessage(s', i, m) {
        assert GoodMessage(s, i, m);
      }
      forall m <- s.nodes[i].repliers ensures IsRequest(s'.nodes, i, m) {
        assert IsRequest(s.nodes, i, m);
      }
    }
  }

  /** As `ReplaceGood`, for a change that leaves inbox and repliers alone. */
  lemma ReplaceLocal(s: State, j: nat, x: Node)
    requires AllGood(s) && j < |s.nodes|
    requires x.inbox == s.nodes[j].inbox && x.repliers == s.nodes[j].repliers && x.slot == s.nodes[j].slot
    requires s.nodes[j].app.Waiting? ==> x.app == s.nodes[j].app
    requires forall k <- x.entries :: k.node == j && (k, x.entries[k]) in s.puts
    requires forall k <- x.held :: (k, x.held[k]) in s.puts
    requires x.app.Publishing? ==> forall p <- x.app.todo :: p.0.node < |s.nodes|
    requires x.app.Waiting? ==> x.app.want.node < |s.nodes|
    ensures AllGood(s.(nodes := s.nodes[j := x]))
  {
    var s' := s.(nodes := s.nodes[j := x]);
    assert GoodNode(s, j);
    forall m <- x.inbox ensures GoodMessage(s', j, m) {
      assert GoodMessage(s, j, m);
    }
    forall m <- x.repliers ensures IsRequest(s'.nodes, j, m) {
      assert IsRequest(s.nodes, j, m);
    }
    ReplaceGood(s, j, x);
  }

  lemma DeliverGood(s: State, m: Message)
    requires AllGood(s) && m.target < |s.nodes| && GoodMessage(s, m.target, m)
    ensures AllGood(s.(nodes := Deliver(s.nodes, m)))
  {
    var j := m.target;
    var x := s.nodes[j].(inbox := s.nodes[j].inbox + [m]);
    var s' := s.(nodes := s.nodes[j := x]);
    assert GoodNode(s, j);
    forall m' <- x.inbox ensures GoodMessage(s', j, m') {
      assert GoodMessage(s, j, m');
    }
    forall m <- x.repliers ensures IsRequest(s'.nodes, j, m) {
      assert IsRequest(s.nodes, j, m);
    }
    ReplaceGood(s, j, x);
  }

  lemma MorePutsGood(s: State, p: (Key, Blob))
    requires AllGood(s)
    ensures AllGood(s.(puts := s.puts + {p}))
  {
    var s' := s.(puts := s.puts + {p});
    forall j | 0 <= j < |s.nodes| ensures GoodNode(s', j) {
      assert GoodNode(s, j);
      forall m <- s.nodes[j].inbox ensures GoodMessage(s', j, m) {
        assert GoodMessage(s, j, m);
      }
    }
  }

  lemma PutNextGood(plan: Plan, s: State, n: nat)
    requires AllGood(s) && Enabled(plan, s, PutNext(n))
    ensures AllGood(Apply(plan, s, PutNext(n)))
  {
    var node := s.nodes[n];
    assert GoodNode(s, n);
    if node.app.todo == [] {
      ReplaceLocal(s, n, node.(app := Running));
    } else {
      var (k, v) := node.app.todo[0];
      var s1 := s.(puts := s.puts + {(k, v)});
      MorePutsGood(s, (k, v));
      var x := Issue(plan, node);
      ReplaceLocal(s1, n, x);
      var s2 := s1.(nodes := s.nodes[n := x]);
      assert GoodNode(s2, n);
      if k.node == n {
        ReplaceLocal(s2, n, x.(entries := x.entries[k := v]));
      } else {
        DeliverGood(s2, Put(n, k.node, 0, k, v));
      }
    }
  }

  lemma AppStepGood(plan: Plan, s: State, st: Step)
    requires Inv(s) && WellFormed(plan) && Enabled(plan, s, st) && !IsService(st)
    ensures AllGood(Apply(plan, s, st))
  {
    var n, node := st.n, s.nodes[st.n];
    assert GoodNode(s, n);
    match st
    case Publish(_, sk, todo) =>
      forall p <- todo ensures p.0.node < |s.nodes| {
        var i :| 0 <= i < |todo| && todo[i] == p;
        assert i < |plan[sk]| ==> plan[sk][i] in plan[sk];
      }
      ReplaceLocal(s, n, node.(app := Publishing(todo)));
    case PutNext(_) =>
      PutNextGood(plan, s, n);
    case Ask(_, k) =>
      if k.node != n {
        ReplaceLocal(s, n, node.(app := Waiting(k)));
        DeliverGood(s.(nodes := s.nodes[n := node.(app := Waiting(k))]), Get(n, k.node, 0, k));
      } else if k in node.entries {
        ReplaceLocal(s, n, node.(held := node.held[k := node.entries[k]]));
      } else {
        ReplaceLocal(s, n, node.(app := Aborted));
      }
    case Stop(_, victim) =>
      DeliverGood(s, Kill(n, victim, 0));
  }

  lemma ServeGood(s: State, n: nat)
    requires AllGood(s) && n < |s.nodes| && s.nodes[n].inbox != []
    ensures AllGood(s.(nodes := s.nodes[n := ServeNode(s.nodes[n])]))
  {
    var node, x := s.nodes[n], ServeNode(s.nodes[n]);
    var s' := s.(nodes := s.nodes[n := x]);
    assert GoodNode(s, n);
    assert GoodMessage(s, n, node.inbox[0]);
    forall m <- x.inbox ensures GoodMessage(s', n, m) {
      assert GoodMessage(s, n, m);
    }
    forall m <- x.repliers ensures IsRequest(s'.nodes, n, m) {
      assert m in node.repliers || m == node.inbox[0];
      assert IsRequest(s.nodes, n, m);
    }
    ReplaceGood(s, n, x);
  }

  lemma AnswerGood(s: State, n: nat, i: nat)
    requires AllGood(s) && n < |s.nodes| && i < |s.nodes[n].repliers|
    requires var g := s.nodes[n].repliers[i]; g.Get? && g.sender < |s.nodes| && g.key in s.nodes[n].entries
    ensures AllGood(s.(nodes := AnswerAt(s.nodes, n, i)))
  {
    var node := s.nodes[n];
    var g := node.repliers[i];
    var x := node.(repliers := node.repliers[..i] + node.repliers[i + 1..]);
    var s' := s.(nodes := s.nodes[n := x]);
    assert GoodNode(s, n);
    forall m <- x.inbox ensures GoodMessage(s', n, m) {
      assert GoodMessage(s, n, m);
    }
    forall m <- x.repliers ensures IsRequest(s'.nodes, n, m) {
      assert m in node.repliers;
    }
    ReplaceGood(s, n, x);
    assert IsRequest(s.nodes, n, g);
    DeliverGood(s', Reply(n, g.sender, 0, g.key, node.entries[g.key]));
  }

  /** Taking the slot uses up the node's only token, so nothing else refers to its wait. */
  lemma TakeGood(s: State, n: nat)
    requires Inv(s) && n < |s.nodes| && s.nodes[n].app.Waiting? && s.nodes[n].slot.Some?
    ensures AllGood(s.(nodes := s.nodes[n := TakeNode(s.nodes[n])]))
  {
    var nodes' := s.nodes[n := TakeNode(s.nodes[n])];
    var s' := s.(nodes := nodes');
    assert TokensOk(s.nodes, n);
    TakeLoad(Tokens(n), s.nodes, n);
    NoLoad(Tokens(n), nodes');
    forall j | 0 <= j < |s.nodes| ensures GoodNode(s', j) {
      assert GoodNode(s, j);
      forall m <- nodes'[j].inbox ensures GoodMessage(s', j, m) {
        assert GoodMessage(s, j, m) && InboxWeight(Tokens(n), j, m) == 0;
      }
      forall m <- nodes'[j].repliers ensures IsRequest(s'.nodes, j, m) {
        assert IsRequest(s.nodes, j, m) && ReplierWeight(Tokens(n), m) == 0;
      }
    }
  }

  lemma StepTokens(plan: Plan, s: State, st: Step, n: nat)
    requires Inv(s) && Enabled(plan, s, st) && n < |s.nodes|
    ensures |Apply(plan, s, st).nodes| == |s.nodes| && TokensOk(Apply(plan, s, st).nodes, n)
  {
    assert TokensOk(s.nodes, n);
    var w := Tokens(n);
    match st
    case Serve(j) =>
      if s.nodes[j].inbox[0].Reply? {
        ReplyFindsSlotFree(s, j);
      }
      ServeLoad(w, s.nodes, j);
    case Answer(j, i) => AnswerLoad(w, s.nodes, j, i);
    case Take(j) => TakeLoad(w, s.nodes, j);
    case _ => AppStepLoad(plan, w, s, st);
  }

  lemma StepInv(plan: Plan, s: State, st: Step)
    requires Inv(s) && WellFormed(plan) && Enabled(plan, s, st)
    ensures Inv(Apply(plan, s, st))
  {
    forall n | 0 <= n < |s.nodes|
      ensures |Apply(plan, s, st).nodes| == |s.nodes| && TokensOk(Apply(plan, s, st).nodes, n)
    {
      StepTokens(plan, s, st, n);
    }
    match st
    case Serve(n) => ServeGood(s, n);
    case Answer(n, i) => AnswerGood(s, n, i);
    case Take(n) => TakeGood(s, n);
    case _ => AppStepGood(plan, s, st);
  }

  lemma {:induction false} ReachableInv(plan: Plan, run: seq<State>)
    requires WellFormed(plan) && IsRun(plan, run)
    ensures Inv(run[|run| - 1])
  {
    if |run| == 1 {
      InitInv(run[0]);
    } else {
      var prefix := run[..|run| - 1];
      forall i | 0 <= i < |prefix| - 1 ensures Next(plan, prefix[i], prefix[i + 1]) {
        assert Next(plan, run[i], run[i + 1]);
      }
      ReachableInv(plan, prefix);
      assert Next(plan, run[|run| - 2], run[|run| - 1]);
      var st :| Enabled(plan, run[|run| - 2], st) && run[|run| - 1] == Apply(plan, run[|run| - 2], st);
      StepInv(plan, run[|run| - 2], st);
    }
  }

  // ---------- the theorems ----------

  /**
   In every reachable state the Gets in flight from a node, the repliers
   serving it, the Replies in flight to it and its filled slot number one in
   all while it waits, and none otherwise.
   */
  lemma OneTokenPerWait(plan: Plan, s: State, n: nat)
    requires WellFormed(plan) && Reachable(plan, s) && n < |s.nodes|
    ensures Load(Tokens(n), s.nodes) == if s.nodes[n].app.Waiting? then 1 else 0
  {
    var run :| IsRun(plan, run) && run[|run| - 1] == s;
    ReachableInv(plan, run);
    assert TokensOk(s.nodes, n);
  }

  /** A reply never overwrites a value the application has not taken yet. */
  lemma SlotNeverOverwritten(plan: Plan, s: State, n: nat)
    requires WellFormed(plan) && Reachable(plan, s)
    requires Enabled(plan, s, Serve(n)) && s.nodes[n].inbox[0].Reply?
    ensures s.nodes[n].slot == None
    ensures s.nodes[n].app == Waiting(s.nodes[n].inbox[0].key)
  {
    var run :| IsRun(plan, run) && run[|run| - 1] == s;
    ReachableInv(plan, run);
    ReplyFindsSlotFree(s, n);
    assert GoodNode(s, n) && GoodMessage(s, n, s.nodes[n].inbox[0]);
  }

  /** What an application is handed was put under exactly the key it is held by. */
  lemma ReturnedValueWasPut(plan: Plan, s: State, n: nat, k: Key)
    requires WellFormed(plan) && Reachable(plan, s) && n < |s.nodes|
    ensures k in s.nodes[n].held ==> (k, s.nodes[n].held[k]) in s.puts
    ensures Enabled(plan, s, Take(n)) ==> (s.nodes[n].app.want, s.nodes[n].slot.value) in s.puts
    ensures k in s.nodes[n].entries ==> k.node == n && (k, s.nodes[n].entries[k]) in s.puts
  {
    var run :| IsRun(plan, run) && run[|run| - 1] == s;
    ReachableInv(plan, run);
    assert GoodNode(s, n);
  }

  /** The servicer's assertions hold: a Put or Get it pops was sent to the node its key names. */
  lemma ServedAtHome(plan: Plan, s: State, n: nat)
    requires WellFormed(plan) && Reachable(plan, s) && Enabled(plan, s, Serve(n))
    ensures var m := s.nodes[n].inbox[0];
            m.target == n && (m.Put? || m.Get? ==> m.key.node == n)
  {
    var run :| IsRun(plan, run) && run[|run| - 1] == s;
    ReachableInv(plan, run);
    assert GoodNode(s, n) && GoodMessage(s, n, s.nodes[n].inbox[0]);
  }
}
