/** How each step changes the load of the nodes, for either meter. */
module KvLoad {
  import opened Params
  import opened Messages
  import opened KvProtocol

  lemma {:induction false} InboxLoadAppend(w: Meter, j: nat, q: seq<Message>, m: Message)
    ensures InboxLoad(w, j, q + [m]) == InboxLoad(w, j, q) + InboxWeight(w, j, m)
  {
    if q == [] {
      assert InboxLoad(w, j, [m]) == InboxWeight(w, j, m) + InboxLoad(w, j, [m][1..]);
    } else {
      assert (q + [m])[1..] == q[1..] + [m];
      InboxLoadAppend(w, j, q[1..], m);
    }
  }

  lemma {:induction false} ReplierLoadAppend(w: Meter, q: seq<Message>, m: Message)
    ensures ReplierLoad(w, q + [m]) == ReplierLoad(w, q) + ReplierWeight(w, m)
  {
    if q == [] {
      assert ReplierLoad(w, [m]) == ReplierWeight(w, m) + ReplierLoad(w, [m][1..]);
    } else {
      assert (q + [m])[1..] == q[1..] + [m];
      ReplierLoadAppend(w, q[1..], m);
    }
  }

  lemma {:induction false} ReplierLoadRemove(w: Meter, q: seq<Message>, i: nat)
    requires i < |q|
    ensures ReplierLoad(w, q[..i] + q[i + 1..]) == ReplierLoad(w, q) - ReplierWeight(w, q[i])
  {
    if i == 0 {
      assert q[..0] + q[1..] == q[1..];
    } else {
      assert (q[..i] + q[i + 1..])[1..] == q[1..][..i - 1] + q[1..][i..];
      ReplierLoadRemove(w, q[1..], i - 1);
    }
  }

  lemma {:induction false} LoadUpdate(w: Meter, nodes: seq<Node>, i: nat, x: Node, j: nat)
    requires i < |nodes| && j <= |nodes|
    ensures Load(w, nodes[i := x], j) ==
            Load(w, nodes, j) + (if j <= i then NodeLoad(w, i, x) - NodeLoad(w, i, nodes[i]) else 0)
    decreases |nodes| - j
  {
    if j < |nodes| {
      LoadUpdate(w, nodes, i, x, j + 1);
    }
  }

  lemma DeliverLoad(w: Meter, nodes: seq<Node>, m: Message)
    requires m.target < |nodes|
    ensures Load(w, Deliver(nodes, m)) == Load(w, nodes) + InboxWeight(w, m.target, m)
  {
    var node := nodes[m.target];
    InboxLoadAppend(w, m.target, node.inbox, m);
    LoadUpdate(w, nodes, m.target, node.(inbox := node.inbox + [m]), 0);
  }

  /** The load of a whole system bounds the load of each node. */
  lemma {:induction false} NodeLoadBound(w: Meter, nodes: seq<Node>, i: nat, j: nat)
    requires j <= i < |nodes|
    ensures NodeLoad(w, i, nodes[i]) <= Load(w, nodes, j)
    decreases |nodes| - j
  {
    if j < i {
      NodeLoadBound(w, nodes, i, j + 1);
    }
  }

  lemma {:induction false} InboxMemberBound(w: Meter, j: nat, q: seq<Message>, i: nat)
    requires i < |q|
    ensures InboxWeight(w, j, q[i]) <= InboxLoad(w, j, q)
  {
    if i > 0 {
      InboxMemberBound(w, j, q[1..], i - 1);
    }
  }

  lemma {:induction false} ReplierMemberBound(w: Meter, q: seq<Message>, i: nat)
    requires i < |q|
    ensures ReplierWeight(w, q[i]) <= ReplierLoad(w, q)
  {
    if i > 0 {
      ReplierMemberBound(w, q[1..], i - 1);
    }
  }

  /** With no load, nothing carries weight. */
  lemma NoLoad(w: Meter, nodes: seq<Node>)
    requires Load(w, nodes) == 0
    ensures forall j, m | 0 <= j < |nodes| && m in nodes[j].inbox :: InboxWeight(w, j, m) == 0
    ensures forall j, m | 0 <= j < |nodes| && m in nodes[j].repliers :: ReplierWeight(w, m) == 0
    ensures forall j | 0 <= j < |nodes| :: SlotWeight(w, j, nodes[j].slot) == 0
  {
    forall j | 0 <= j < |nodes| ensures NodeLoad(w, j, nodes[j]) == 0 {
      NodeLoadBound(w, nodes, j, 0);
    }
    forall j, m | 0 <= j < |nodes| && m in nodes[j].inbox ensures InboxWeight(w, j, m) == 0 {
      var i :| 0 <= i < |nodes[j].inbox| && nodes[j].inbox[i] == m;
      assert NodeLoad(w, j, nodes[j]) == 0;
      InboxMemberBound(w, j, nodes[j].inbox, i);
    }
    forall j, m | 0 <= j < |nodes| && m in nodes[j].repliers ensures ReplierWeight(w, m) == 0 {
      var i :| 0 <= i < |nodes[j].repliers| && nodes[j].repliers[i] == m;
      assert NodeLoad(w, j, nodes[j]) == 0;
      ReplierMemberBound(w, nodes[j].repliers, i);
    }
    forall j | 0 <= j < |nodes| ensures SlotWeight(w, j, nodes[j].slot) == 0 {
      assert NodeLoad(w, j, nodes[j]) == 0;
    }
  }

  // ---------- the steps ----------

  predicate IsService(st: Step) {
    st.Serve? || st.Answer? || st.Take?
  }

  /** The servicer keeps the tokens of the message it handles, unless a reply meets a full slot. */
  lemma ServeLoad(w: Meter, nodes: seq<Node>, n: nat)
    requires n < |nodes| && nodes[n].inbox != []
    requires nodes[n].inbox[0].Reply? ==> nodes[n].slot.None?
    ensures Load(w, nodes[n := ServeNode(nodes[n])]) == Load(w, nodes) - (if w == Work then 1 else 0)
  {
    var node := nodes[n];
    LoadUpdate(w, nodes, n, ServeNode(node), 0);
    if node.inbox[0].Get? {
      ReplierLoadAppend(w, node.repliers, node.inbox[0]);
    }
  }

  lemma AnswerLoad(w: Meter, nodes: seq<Node>, n: nat, i: nat)
    requires n < |nodes| && i < |nodes[n].repliers|
    requires var g := nodes[n].repliers[i]; g.Get? && g.sender < |nodes| && g.key in nodes[n].entries
    ensures Load(w, AnswerAt(nodes, n, i)) == Load(w, nodes) - (if w == Work then 1 else 0)
  {
    var node := nodes[n];
    var g := node.repliers[i];
    var rest := node.repliers[..i] + node.repliers[i + 1..];
    ReplierLoadRemove(w, node.repliers, i);
    LoadUpdate(w, nodes, n, node.(repliers := rest), 0);
    DeliverLoad(w, nodes[n := node.(repliers := rest)], Reply(n, g.sender, 0, g.key, node.entries[g.key]));
  }

  lemma TakeLoad(w: Meter, nodes: seq<Node>, n: nat)
    requires n < |nodes| && nodes[n].app.Waiting? && nodes[n].slot.Some?
    ensures Load(w, nodes[n := TakeNode(nodes[n])]) == Load(w, nodes) - (if w == Work || w.of == n then 1 else 0)
  {
    LoadUpdate(w, nodes, n, TakeNode(nodes[n]), 0);
  }

  /** An application step adds at most the message it sends; only a remote get adds a token. */
  lemma AppStepLoad(plan: Plan, w: Meter, s: State, st: Step)
    requires Enabled(plan, s, st) && !IsService(st)
    ensures w.Tokens? ==>
              Load(w, Apply(plan, s, st).nodes) ==
              Load(w, s.nodes) + (if st.Ask? && st.key.node != st.n && w.of == st.n then 1 else 0)
  {
    var nodes, node := s.nodes, s.nodes[st.n];
    match st
    case Publish(n, _, todo) =>
      LoadUpdate(w, nodes, n, node.(app := Publishing(todo)), 0);
    case PutNext(n) =>
      if node.app.todo == [] {
        LoadUpdate(w, nodes, n, node.(app := Running), 0);
      } else {
        var (k, v) := node.app.todo[0];
        var x := Issue(plan, node);
        LoadUpdate(w, nodes, n, x, 0);
        if k.node == n {
          LoadUpdate(w, nodes[n := x], n, x.(entries := x.entries[k := v]), 0);
        } else {
          DeliverLoad(w, nodes[n := x], Put(n, k.node, 0, k, v));
        }
      }
    case Ask(n, k) =>
      if k.node != n {
        LoadUpdate(w, nodes, n, node.(app := Waiting(k)), 0);
        DeliverLoad(w, nodes[n := node.(app := Waiting(k))], Get(n, k.node, 0, k));
      } else if k in node.entries {
        LoadUpdate(w, nodes, n, node.(held := node.held[k := node.entries[k]]), 0);
      } else {
        LoadUpdate(w, nodes, n, node.(app := Aborted), 0);
      }
    case Stop(n, victim) =>
      DeliverLoad(w, nodes, Kill(n, victim, 0));
  }

  /** The service an application step can add: four units for a request, one for a put or a kill. */
  lemma AppStepWork(plan: Plan, s: State, st: Step)
    requires Enabled(plan, s, st) && !IsService(st)
    ensures Load(Work, Apply(plan, s, st).nodes) <=
            Load(Work, s.nodes) + (if st.Ask? then 4 else if st.PutNext? && s.nodes[st.n].app.todo == [] then 0
                                   else if st.Publish? then 0 else 1)
  {
    var nodes, node, w := s.nodes, s.nodes[st.n], Work;
    match st
    case Publish(n, _, todo) =>
      LoadUpdate(w, nodes, n, node.(app := Publishing(todo)), 0);
    case PutNext(n) =>
      if node.app.todo == [] {
        LoadUpdate(w, nodes, n, node.(app := Running), 0);
      } else {
        var (k, v) := node.app.todo[0];
        var x := Issue(plan, node);
        LoadUpdate(w, nodes, n, x, 0);
        if k.node == n {
          LoadUpdate(w, nodes[n := x], n, x.(entries := x.entries[k := v]), 0);
        } else {
          DeliverLoad(w, nodes[n := x], Put(n, k.node, 0, k, v));
        }
      }
    case Ask(n, k) =>
      if k.node != n {
        LoadUpdate(w, nodes, n, node.(app := Waiting(k)), 0);
        DeliverLoad(w, nodes[n := node.(app := Waiting(k))], Get(n, k.node, 0, k));
      } else if k in node.entries {
        LoadUpdate(w, nodes, n, node.(held := node.held[k := node.entries[k]]), 0);
      } else {
        LoadUpdate(w, nodes, n, node.(app := Aborted), 0);
      }
    case Stop(n, victim) =>
      DeliverLoad(w, nodes, Kill(n, victim, 0));
  }
}
