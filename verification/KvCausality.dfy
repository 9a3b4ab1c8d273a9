/**
 Publication is causal: whoever holds the schema of a frame already stores
 every chunk of the frame that is homed on its node. The reasons are that a
 schema is put after its chunks and that inboxes are first in, first out.
 */
module KvCausality {
  import opened Params
  import opened Messages
  import opened KvProtocol
  import opened KvLoad
  import opened KvSafety

  function Issued(s: State): set<Key> {
    set p | p in s.puts :: p.0
  }

  /** The keys whose value has left node `n`, or is stored there if it is homed there. */
  function Settled(s: State, n: nat): set<Key>
    requires n < |s.nodes|
  {
    set k | k in Issued(s) && (k.node == n ==> k in s.nodes[n].entries)
  }

  /** The value of `k` is stored, or on its way ahead of position `i` of the inbox. */
  predicate Covered(node: Node, k: Key, i: nat)
    requires i <= |node.inbox|
  {
    k in node.entries || exists j | 0 <= j < i :: node.inbox[j].Put? && node.inbox[j].key == k
  }

  /** Every chunk of frame `sk` homed on node `n` is covered ahead of position `i`. */
  predicate ChunksCovered(plan: Plan, sk: Key, node: Node, n: nat, i: nat)
    requires i <= |node.inbox|
  {
    sk in plan ==> forall ck <- plan[sk] :: ck.node == n ==> Covered(node, ck, i)
  }

  predicate Knows(node: Node, sk: Key) {
    sk in node.entries || sk in node.held || (node.slot.Some? && node.app == Waiting(sk))
  }

  /** The rest of a publication keeps each schema behind its chunks. */
  predicate ChunksFirst(plan: Plan, settled: set<Key>, todo: seq<(Key, Blob)>) {
    forall i | 0 <= i < |todo| && todo[i].0 in plan ::
      forall ck <- plan[todo[i].0] :: ck in settled || exists j | 0 <= j < i :: todo[j].0 == ck
  }

  ghost predicate CausalNode(plan: Plan, s: State, n: nat)
    requires n < |s.nodes|
  {
    var node := s.nodes[n];
    && (node.app.Publishing? ==> ChunksFirst(plan, Settled(s, n), node.app.todo))
    && (forall k <- Issued(s) :: k.node == n ==> Covered(node, k, |node.inbox|))
    && (forall i | 0 <= i < |node.inbox| ::
          node.inbox[i].Put? || node.inbox[i].Reply? ==> ChunksCovered(plan, node.inbox[i].key, node, n, i))
    && (forall sk | Knows(node, sk) :: ChunksCovered(plan, sk, node, n, 0))
  }

  ghost predicate Causal(plan: Plan, s: State) {
    && (forall sk <- Issued(s) :: sk in plan ==> forall ck <- plan[sk] :: ck in Issued(s))
    && (forall n | 0 <= n < |s.nodes| :: CausalNode(plan, s, n))
  }

  /** A change of one node that leaves its inbox and loses no entry keeps what was covered. */
  lemma ReplaceCausal(plan: Plan, s: State, n: nat, x: Node)
    requires Causal(plan, s) && n < |s.nodes|
    requires CausalNode(plan, s.(nodes := s.nodes[n := x]), n)
    ensures Causal(plan, s.(nodes := s.nodes[n := x]))
  {
    var s' := s.(nodes := s.nodes[n := x]);
    assert Issued(s') == Issued(s);
    forall i | 0 <= i < |s.nodes| ensures CausalNode(plan, s', i) {
      assert CausalNode(plan, s, i);
    }
  }

  lemma ReplaceQuiet(plan: Plan, s: State, n: nat, x: Node)
    requires Causal(plan, s) && n < |s.nodes|
    requires x.inbox == s.nodes[n].inbox && x.entries == s.nodes[n].entries
    requires forall sk | Knows(x, sk) :: Knows(s.nodes[n], sk) || ChunksCovered(plan, sk, s.nodes[n], n, 0)
    requires x.app.Publishing? ==> ChunksFirst(plan, Settled(s, n), x.app.todo)
    ensures Causal(plan, s.(nodes := s.nodes[n := x]))
  {
    var s' := s.(nodes := s.nodes[n := x]);
    var node := s.nodes[n];
    assert Issued(s') == Issued(s);
    assert CausalNode(plan, s, n);
    forall i | 0 <= i < |x.inbox| && (x.inbox[i].Put? || x.inbox[i].Reply?)
      ensures ChunksCovered(plan, x.inbox[i].key, x, n, i)
    {
      assert ChunksCovered(plan, node.inbox[i].key, node, n, i);
      CoveredSame(plan, x.inbox[i].key, node, x, n, i);
    }
    forall sk | Knows(x, sk) ensures ChunksCovered(plan, sk, x, n, 0) {
      CoveredSame(plan, sk, node, x, n, 0);
    }
    forall k <- Issued(s') ensures k.node == n ==> Covered(x, k, |x.inbox|) {
      assert k.node == n ==> Covered(node, k, |node.inbox|);
    }
    ReplaceCausal(plan, s, n, x);
  }

  /** Coverage depends only on the entries and on the inbox up to the position. */
  lemma CoveredSame(plan: Plan, sk: Key, node: Node, x: Node, n: nat, i: nat)
    requires i <= |node.inbox| && i <= |x.inbox| && x.inbox[..i] == node.inbox[..i]
    requires node.entries.Keys <= x.entries.Keys
    requires ChunksCovered(plan, sk, node, n, i)
    ensures ChunksCovered(plan, sk, x, n, i)
  {
    if sk in plan {
      forall ck <- plan[sk] | ck.node == n ensures Covered(x, ck, i) {
        assert Covered(node, ck, i);
        if ck !in node.entries {
          var j :| 0 <= j < i && node.inbox[j].Put? && node.inbox[j].key == ck;
          assert x.inbox[..i][j] == node.inbox[..i][j];
        }
      }
    }
  }

  lemma DeliverCausal(plan: Plan, s: State, m: Message)
    requires Causal(plan, s) && m.target < |s.nodes|
    requires (m.Put? || m.Reply?) && m.key in plan ==> forall ck <- plan[m.key] :: ck in Issued(s)
    ensures Causal(plan, s.(nodes := Deliver(s.nodes, m)))
  {
    var n := m.target;
    var node := s.nodes[n];
    var x := node.(inbox := node.inbox + [m]);
    var s' := s.(nodes := s.nodes[n := x]);
    assert Issued(s') == Issued(s);
    assert CausalNode(plan, s, n);
    forall k <- Issued(s') ensures k.node == n ==> Covered(x, k, |x.inbox|) && Covered(x, k, |node.inbox|) {
      if k.node == n {
        assert Covered(node, k, |node.inbox|);
        if k !in node.entries {
          var j :| 0 <= j < |node.inbox| && node.inbox[j].Put? && node.inbox[j].key == k;
          assert x.inbox[j].Put? && x.inbox[j].key == k;
        }
      }
    }
    forall i | 0 <= i < |x.inbox| && (x.inbox[i].Put? || x.inbox[i].Reply?)
      ensures ChunksCovered(plan, x.inbox[i].key, x, n, i)
    {
      if i < |node.inbox| {
        assert ChunksCovered(plan, node.inbox[i].key, node, n, i);
        CoveredSame(plan, x.inbox[i].key, node, x, n, i);
      }
    }
    forall sk | Knows(x, sk) ensures ChunksCovered(plan, sk, x, n, 0) {
      assert Knows(node, sk);
      CoveredSame(plan, sk, node, x, n, 0);
    }
    ReplaceCausal(plan, s, n, x);
  }

  /** Storing a local pair: a schema may be stored once its chunks are settled. */
  lemma StoreCausal(plan: Plan, s: State, n: nat, k: Key, v: Blob)
    requires Causal(plan, s) && n < |s.nodes| && k.node == n
    requires k in plan ==> forall ck <- plan[k] :: ck in Settled(s, n)
    ensures Causal(plan, s.(nodes := s.nodes[n := s.nodes[n].(entries := s.nodes[n].entries[k := v])]))
  {
    var node := s.nodes[n];
    var x := node.(entries := node.entries[k := v]);
    var s' := s.(nodes := s.nodes[n := x]);
    assert Issued(s') == Issued(s);
    assert CausalNode(plan, s, n);
    assert Settled(s, n) <= Settled(s', n);
    forall i | 0 <= i < |x.inbox| && (x.inbox[i].Put? || x.inbox[i].Reply?)
      ensures ChunksCovered(plan, x.inbox[i].key, x, n, i)
    {
      assert ChunksCovered(plan, node.inbox[i].key, node, n, i);
      CoveredSame(plan, x.inbox[i].key, node, x, n, i);
    }
    forall sk | Knows(x, sk) ensures ChunksCovered(plan, sk, x, n, 0) {
      if Knows(node, sk) {
        CoveredSame(plan, sk, node, x, n, 0);
      } else if sk in plan {
        assert sk == k;
        forall ck <- plan[sk] | ck.node == n ensures Covered(x, ck, 0) {
          assert ck in Settled(s, n);
        }
      }
    }
    forall j <- Issued(s') ensures j.node == n ==> Covered(x, j, |x.inbox|) {
      assert j.node == n ==> Covered(node, j, |node.inbox|);
    }
    ReplaceCausal(plan, s, n, x);
  }

  /** A pair may be recorded as put once it is stored or on its way. */
  lemma RecordCausal(plan: Plan, s: State, k: Key, v: Blob)
    requires Causal(plan, s) && k.node < |s.nodes|
    requires Covered(s.nodes[k.node], k, |s.nodes[k.node].inbox|)
    requires k in plan ==> forall ck <- plan[k] :: ck in Issued(s)
    ensures Causal(plan, s.(puts := s.puts + {(k, v)}))
  {
    var s' := s.(puts := s.puts + {(k, v)});
    assert Issued(s') == Issued(s) + {k};
    forall n | 0 <= n < |s.nodes| ensures CausalNode(plan, s', n) {
      assert CausalNode(plan, s, n);
      assert Settled(s, n) <= Settled(s', n);
    }
  }

  lemma ChunksFirstTail(plan: Plan, settled: set<Key>, todo: seq<(Key, Blob)>)
    requires todo != [] && ChunksFirst(plan, settled, todo) && todo[0].0 in settled
    ensures ChunksFirst(plan, settled, todo[1..])
  {
    forall i, ck | 0 <= i < |todo[1..]| && todo[1..][i].0 in plan && ck in plan[todo[1..][i].0]
      ensures ck in settled || exists j | 0 <= j < i :: todo[1..][j].0 == ck
    {
      assert todo[i + 1] == todo[1..][i];
      if ck !in settled {
        var j :| 0 <= j < i + 1 && todo[j].0 == ck;
        assert todo[1..][j - 1].0 == ck;
      }
    }
  }

  /** Storing or sending a pair keeps the order, if it is a chunk or a schema whose chunks are all settled. */
  lemma PutAtCausal(plan: Plan, s: State, n: nat, k: Key, v: Blob)
    requires Causal(plan, s) && n < |s.nodes| && k.node < |s.nodes|
    requires k in plan ==> forall ck <- plan[k] :: ck in Settled(s, n)
    ensures Causal(plan, State(PutAt(s.nodes, n, k, v), s.puts + {(k, v)}))
    ensures Settled(s, n) <= Settled(State(PutAt(s.nodes, n, k, v), s.puts + {(k, v)}), n)
  {
    var s1 := s.(nodes := PutAt(s.nodes, n, k, v));
    var home := s1.nodes[k.node];
    if k.node == n {
      StoreCausal(plan, s, n, k, v);
    } else {
      DeliverCausal(plan, s, Put(n, k.node, 0, k, v));
      assert home.inbox[|home.inbox| - 1].Put?;
    }
    assert Issued(s1) == Issued(s);
    RecordCausal(plan, s1, k, v);
    assert s1.(puts := s.puts + {(k, v)}) == State(PutAt(s.nodes, n, k, v), s.puts + {(k, v)});
  }

  /** The loader may go on once the put pair is settled and the chunks of a put schema are stored. */
  lemma IssueCausal(plan: Plan, s: State, n: nat)
    requires Causal(plan, s) && n < |s.nodes| && s.nodes[n].app.Publishing? && s.nodes[n].app.todo != []
    requires var k := s.nodes[n].app.todo[0].0; k in Settled(s, n) && ChunksCovered(plan, k, s.nodes[n], n, 0)
    ensures Causal(plan, s.(nodes := s.nodes[n := Issue(plan, s.nodes[n])]))
  {
    assert CausalNode(plan, s, n);
    ChunksFirstTail(plan, Settled(s, n), s.nodes[n].app.todo);
    ReplaceQuiet(plan, s, n, Issue(plan, s.nodes[n]));
  }

  /** The next put of a publication is a chunk, or a schema whose chunks are all settled. */
  lemma PutNextCausal(plan: Plan, s: State, n: nat)
    requires Inv(s) && Causal(plan, s) && Enabled(plan, s, PutNext(n)) && s.nodes[n].app.todo != []
    ensures Causal(plan, Apply(plan, s, PutNext(n)))
  {
    var node := s.nodes[n];
    var todo := node.app.todo;
    var (k, v) := todo[0];
    var settled := Settled(s, n);
    assert CausalNode(plan, s, n);
    assert k in plan ==> forall ck <- plan[k] :: ck in settled;
    assert GoodNode(s, n);
    PutAtCausal(plan, s, n, k, v);
    var s2 := State(PutAt(s.nodes, n, k, v), s.puts + {(k, v)});
    assert k in Issued(s2) by { assert (k, v) in s2.puts; }
    var last := s2.nodes[n];
    assert node.entries.Keys <= last.entries.Keys;
    assert ChunksCovered(plan, k, last, n, 0) by {
      assert k in plan ==> forall ck <- plan[k] :: ck in settled && (ck.node == n ==> ck in node.entries);
    }
    IssueCausal(plan, s2, n);
    assert Apply(plan, s, PutNext(n)).nodes == s2.nodes[n := Issue(plan, last)];
  }

  lemma ServeCausal(plan: Plan, s: State, n: nat)
    requires Inv(s) && Causal(plan, s) && n < |s.nodes| && s.nodes[n].inbox != []
    ensures Causal(plan, s.(nodes := s.nodes[n := ServeNode(s.nodes[n])]))
  {
    var node, x := s.nodes[n], ServeNode(s.nodes[n]);
    var s' := s.(nodes := s.nodes[n := x]);
    var m := node.inbox[0];
    assert Issued(s') == Issued(s);
    assert CausalNode(plan, s, n) && GoodNode(s, n) && GoodMessage(s, n, m);
    assert Settled(s, n) <= Settled(s', n);
    forall k, i | 0 <= i < |node.inbox| && Covered(node, k, i + 1) ensures Covered(x, k, i) {
      PopCovered(node, k, i);
    }
    forall k <- Issued(s') ensures k.node == n ==> Covered(x, k, |x.inbox|) {
      assert k.node == n ==> Covered(node, k, |x.inbox| + 1);
    }
    forall i | 0 <= i < |x.inbox| && (x.inbox[i].Put? || x.inbox[i].Reply?)
      ensures ChunksCovered(plan, x.inbox[i].key, x, n, i)
    {
      assert ChunksCovered(plan, node.inbox[i + 1].key, node, n, i + 1);
    }
    forall sk | Knows(x, sk) ensures ChunksCovered(plan, sk, x, n, 0) {
      if Knows(node, sk) {
        CoveredSame(plan, sk, node, x, n, 0);
      } else {
        assert ChunksCovered(plan, m.key, node, n, 0);
        CoveredSame(plan, sk, node, x, n, 0);
      }
    }
    ReplaceCausal(plan, s, n, x);
  }

  lemma PopCovered(node: Node, k: Key, i: nat)
    requires i < |node.inbox| && Covered(node, k, i + 1)
    ensures Covered(ServeNode(node), k, i)
  {
    if k !in ServeNode(node).entries {
      var j :| 0 <= j < i + 1 && node.inbox[j].Put? && node.inbox[j].key == k;
      assert ServeNode(node).inbox[j - 1] == node.inbox[j];
    }
  }

  lemma AnswerCausal(plan: Plan, s: State, n: nat, i: nat)
    requires Inv(s) && Causal(plan, s) && Enabled(plan, s, Answer(n, i))
    ensures Causal(plan, Apply(plan, s, Answer(n, i)))
  {
    var node := s.nodes[n];
    var g := node.repliers[i];
    var x := node.(repliers := node.repliers[..i] + node.repliers[i + 1..]);
    assert GoodNode(s, n) && CausalNode(plan, s, n);
    ReplaceQuiet(plan, s, n, x);
    var s1 := s.(nodes := s.nodes[n := x]);
    assert Issued(s1) == Issued(s);
    assert (g.key, node.entries[g.key]) in s.puts;
    assert g.key in Issued(s);
    DeliverCausal(plan, s1, Reply(n, g.sender, 0, g.key, node.entries[g.key]));
  }

  lemma StepCausal(plan: Plan, s: State, st: Step)
    requires WellFormed(plan) && Inv(s) && Causal(plan, s) && Enabled(plan, s, st)
    ensures Causal(plan, Apply(plan, s, st))
  {
    var n, node := st.n, s.nodes[st.n];
    assert CausalNode(plan, s, n);
    match st
    case Publish(_, sk, todo) =>
      forall i, ck | 0 <= i < |todo| && todo[i].0 in plan && ck in plan[todo[i].0]
        ensures ck in Settled(s, n) || exists j | 0 <= j < i :: todo[j].0 == ck
      {
        PublishedInOrder(plan, sk, todo, i, ck);
      }
      ReplaceQuiet(plan, s, n, node.(app := Publishing(todo)));
    case PutNext(_) =>
      if node.app.todo == [] {
        ReplaceQuiet(plan, s, n, node.(app := Running));
      } else {
        PutNextCausal(plan, s, n);
      }
    case Ask(_, k) =>
      if k.node != n {
        assert GoodNode(s, n);
        ReplaceQuiet(plan, s, n, node.(app := Waiting(k)));
        DeliverCausal(plan, s.(nodes := s.nodes[n := node.(app := Waiting(k))]), Get(n, k.node, 0, k));
      } else if k in node.entries {
        ReplaceQuiet(plan, s, n, node.(held := node.held[k := node.entries[k]]));
      } else {
        ReplaceQuiet(plan, s, n, node.(app := Aborted));
      }
    case Serve(_) => ServeCausal(plan, s, n);
    case Answer(_, i) => AnswerCausal(plan, s, n, i);
    case Take(_) => ReplaceQuiet(plan, s, n, TakeNode(node));
    case Stop(_, victim) => DeliverCausal(plan, s, Kill(n, victim, 0));
  }

  lemma PublishedInOrder(plan: Plan, sk: Key, todo: seq<(Key, Blob)>, i: nat, ck: Key)
    requires PublicationOf(plan, sk, todo) && i < |todo| && todo[i].0 in plan && ck in plan[todo[i].0]
    requires WellFormed(plan)
    ensures exists j | 0 <= j < i :: todo[j].0 == ck
  {
    assert forall h | 0 <= h < |plan[sk]| :: todo[h].0 in plan[sk] && todo[h].0 !in plan;
    var j :| 0 <= j < |plan[sk]| && plan[sk][j] == ck;
    assert todo[j].0 == ck;
  }

  lemma {:induction false} ReachableCausal(plan: Plan, run: seq<State>)
    requires WellFormed(plan) && IsRun(plan, run)
    ensures Inv(run[|run| - 1]) && Causal(plan, run[|run| - 1])
  {
    if |run| == 1 {
      InitInv(run[0]);
      assert Issued(run[0]) == {};
    } else {
      var prefix := run[..|run| - 1];
      forall i | 0 <= i < |prefix| - 1 ensures Next(plan, prefix[i], prefix[i + 1]) {
        assert Next(plan, run[i], run[i + 1]);
      }
      ReachableCausal(plan, prefix);
      assert Next(plan, run[|run| - 2], run[|run| - 1]);
      var st :| Enabled(plan, run[|run| - 2], st) && run[|run| - 1] == Apply(plan, run[|run| - 2], st);
      StepInv(plan, run[|run| - 2], st);
      StepCausal(plan, run[|run| - 2], st);
    }
  }

  lemma StateIsCausal(plan: Plan, s: State)
    requires WellFormed(plan) && Reachable(plan, s)
    ensures Inv(s) && Causal(plan, s)
  {
    var run :| IsRun(plan, run) && run[|run| - 1] == s;
    ReachableCausal(plan, run);
  }

  // ---------- the theorems ----------

  /** Whoever was handed a frame's schema, or published it, stores every chunk homed on its node. */
  lemma SchemaHolderHasChunks(plan: Plan, s: State, n: nat, sk: Key, ck: Key)
    requires WellFormed(plan) && Reachable(plan, s) && n < |s.nodes|
    requires sk in plan && ck in plan[sk] && ck.node == n
    requires sk in s.nodes[n].held
    ensures ck in s.nodes[n].entries
  {
    var run :| IsRun(plan, run) && run[|run| - 1] == s;
    ReachableCausal(plan, run);
    assert CausalNode(plan, s, n);
    assert Knows(s.nodes[n], sk);
    assert Covered(s.nodes[n], ck, 0);
  }

  /** A loader that has put its frame's schema can load the frame's own chunks like any other holder. */
  lemma LoaderHoldsItsSchema(plan: Plan, s: State, n: nat, ck: Key)
    requires WellFormed(plan) && Reachable(plan, s) && Enabled(plan, s, PutNext(n))
    requires s.nodes[n].app.todo != [] && s.nodes[n].app.todo[0].0 in plan
    ensures var (sk, v) := s.nodes[n].app.todo[0];
            var node' := Apply(plan, s, PutNext(n)).nodes[n];
            && sk in node'.held && node'.held[sk] == v
            && (ck in plan[sk] && ck.node == n ==> ck in node'.entries)
  {
    var run :| IsRun(plan, run) && run[|run| - 1] == s;
    ReachableCausal(plan, run);
    var s' := Apply(plan, s, PutNext(n));
    StepCausal(plan, s, PutNext(n));
    var sk := s.nodes[n].app.todo[0].0;
    assert CausalNode(plan, s', n) && Knows(s'.nodes[n], sk);
    assert ck in plan[sk] && ck.node == n ==> Covered(s'.nodes[n], ck, 0);
  }

  /**
   The unguarded local lookup of a chunk never aborts and yields a value put
   under the chunk's key, once the application has the schema.
   */
  lemma LocalLoadNeverAborts(plan: Plan, s: State, n: nat, sk: Key, ck: Key)
    requires WellFormed(plan) && Reachable(plan, s)
    requires Enabled(plan, s, Ask(n, ck)) && sk in plan && ck in plan[sk] && ck.node == n
    requires sk in s.nodes[n].held
    ensures var node' := Apply(plan, s, Ask(n, ck)).nodes[n];
            node'.app == Running && ck in node'.held && (ck, node'.held[ck]) in s.puts
  {
    SchemaHolderHasChunks(plan, s, n, sk, ck);
    ReturnedValueWasPut(plan, s, n, ck);
  }

  /** A pair once put is never lost: it is stored at its home or in that node's inbox. */
  lemma PutsAreNeverLost(plan: Plan, s: State, k: Key, v: Blob)
    requires WellFormed(plan) && Reachable(plan, s) && (k, v) in s.puts && k.node < |s.nodes|
    ensures var home := s.nodes[k.node];
            k in home.entries || exists j | 0 <= j < |home.inbox| :: home.inbox[j].Put? && home.inbox[j].key == k
  {
    var run :| IsRun(plan, run) && run[|run| - 1] == s;
    ReachableCausal(plan, run);
    assert CausalNode(plan, s, k.node) && k in Issued(s);
    assert Covered(s.nodes[k.node], k, |s.nodes[k.node].inbox|);
  }
}
