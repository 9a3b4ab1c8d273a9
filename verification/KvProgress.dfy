/**
 Service makes progress: every step of a servicer, a replier or a waking
 application uses up one unit of work, and when no such step is left only
 requests for keys that nobody ever stored are still open.
 */
module KvProgress {
  import opened Params
  import opened Messages
  import opened KvProtocol
  import opened KvLoad
  import opened KvSafety
  import opened KvCausality

  /** A service step lowers the work by exactly one. */
  lemma ServiceUsesUpWork(plan: Plan, s: State, st: Step)
    requires WellFormed(plan) && Reachable(plan, s)
    requires Enabled(plan, s, st) && IsService(st)
    ensures Load(Work, Apply(plan, s, st).nodes) == Load(Work, s.nodes) - 1
  {
    var run :| IsRun(plan, run) && run[|run| - 1] == s;
    ReachableInv(plan, run);
    match st
    case Serve(n) =>
      if s.nodes[n].inbox[0].Reply? {
        ReplyFindsSlotFree(s, n);
      }
      ServeLoad(Work, s.nodes, n);
    case Answer(n, i) => AnswerLoad(Work, s.nodes, n, i);
    case Take(n) => TakeLoad(Work, s.nodes, n);
  }

  /** `states` is a run from a reachable state in which only service steps happen. */
  ghost predicate IsServiceRun(plan: Plan, states: seq<State>) {
    && |states| > 0
    && Reachable(plan, states[0])
    && forall i | 0 <= i < |states| - 1 :: ServiceNext(plan, states[i], states[i + 1])
  }

  ghost predicate ServiceNext(plan: Plan, s: State, s': State) {
    exists st :: IsService(st) && Enabled(plan, s, st) && s' == Apply(plan, s, st)
  }

  lemma ExtendRun(plan: Plan, s: State, s': State)
    requires Reachable(plan, s) && Next(plan, s, s')
    ensures Reachable(plan, s')
  {
    var run :| IsRun(plan, run) && run[|run| - 1] == s;
    var run' := run + [s'];
    forall i | 0 <= i < |run'| - 1 ensures Next(plan, run'[i], run'[i + 1]) {
      if i < |run| - 1 {
        assert Next(plan, run[i], run[i + 1]);
      }
    }
    assert IsRun(plan, run') && run'[|run'| - 1] == s';
  }

  /** Without new sends the service ends: the work at the start is exactly the steps taken plus the work left. */
  lemma {:induction false} ServiceTerminates(plan: Plan, states: seq<State>)
    requires WellFormed(plan) && IsServiceRun(plan, states)
    ensures Reachable(plan, states[|states| - 1])
    ensures Load(Work, states[0].nodes) == |states| - 1 + Load(Work, states[|states| - 1].nodes)
  {
    if |states| > 1 {
      var prefix := states[..|states| - 1];
      forall i | 0 <= i < |prefix| - 1 ensures ServiceNext(plan, prefix[i], prefix[i + 1]) {
        assert ServiceNext(plan, states[i], states[i + 1]);
      }
      ServiceTerminates(plan, prefix);
      var s, s' := states[|states| - 2], states[|states| - 1];
      assert ServiceNext(plan, s, s');
      var st :| IsService(st) && Enabled(plan, s, st) && s' == Apply(plan, s, st);
      ServiceUsesUpWork(plan, s, st);
      assert Next(plan, s, s');
      ExtendRun(plan, s, s');
    }
  }

  ghost predicate Quiescent(plan: Plan, s: State) {
    forall st | IsService(st) :: !Enabled(plan, s, st)
  }

  /** A positive load has a carrier. */
  lemma {:induction false} LoadHasCarrier(w: Meter, nodes: seq<Node>, j: nat) returns (i: nat)
    requires j <= |nodes| && Load(w, nodes, j) > 0
    ensures j <= i < |nodes| && NodeLoad(w, i, nodes[i]) > 0
    decreases |nodes| - j
  {
    if NodeLoad(w, j, nodes[j]) > 0 {
      i := j;
    } else {
      i := LoadHasCarrier(w, nodes, j + 1);
    }
  }

  lemma {:induction false} ReplierCarrier(w: Meter, q: seq<Message>) returns (i: nat)
    requires ReplierLoad(w, q) > 0
    ensures i < |q| && ReplierWeight(w, q[i]) > 0
  {
    if ReplierWeight(w, q[0]) > 0 {
      i := 0;
    } else {
      var k := ReplierCarrier(w, q[1..]);
      i := k + 1;
    }
  }

  /**
   When every servicer still runs and no service step is possible, a node that
   still waits has its request at the home of a key that no store holds, and
   nobody has ever put that key.
   */
  lemma OnlyAbsentKeysAreAwaited(plan: Plan, s: State, n: nat)
    requires WellFormed(plan) && Reachable(plan, s) && Quiescent(plan, s)
    requires forall j | 0 <= j < |s.nodes| :: s.nodes[j].serving
    requires n < |s.nodes| && s.nodes[n].app.Waiting?
    ensures var k := s.nodes[n].app.want;
            && (forall j | 0 <= j < |s.nodes| :: k !in s.nodes[j].entries)
            && (forall v :: (k, v) !in s.puts)
  {
    hide WellFormed, Reachable, Causal;
    StateIsCausal(plan, s);
    var k := s.nodes[n].app.want;
    assert TokensOk(s.nodes, n) && GoodNode(s, n);
    var j := LoadHasCarrier(Tokens(n), s.nodes, 0);
    forall i | 0 <= i < |s.nodes| ensures s.nodes[i].inbox == [] {
      assert !Enabled(plan, s, Serve(i));
    }
    assert !Enabled(plan, s, Take(n));
    var i := ReplierCarrier(Tokens(n), s.nodes[j].repliers);
    var g := s.nodes[j].repliers[i];
    assert GoodNode(s, j) && g in s.nodes[j].repliers && IsRequest(s.nodes, j, g);
    assert g.key == k && k.node == j;
    assert !Enabled(plan, s, Answer(j, i));
    forall h | 0 <= h < |s.nodes| ensures k !in s.nodes[h].entries {
      assert GoodNode(s, h);
    }
    NeverPut(plan, s, k);
  }

  /** A key that its home neither stores nor has in its inbox was never put. */
  lemma NeverPut(plan: Plan, s: State, k: Key)
    requires Causal(plan, s) && k.node < |s.nodes|
    requires s.nodes[k.node].inbox == [] && k !in s.nodes[k.node].entries
    ensures forall v :: (k, v) !in s.puts
  {
    var j := k.node;
    assert CausalNode(plan, s, j);
    assert forall c <- Issued(s) :: c.node == j ==> Covered(s.nodes[j], c, |s.nodes[j].inbox|);
    forall v ensures (k, v) !in s.puts {
      assert (k, v) in s.puts ==> k in Issued(s);
    }
  }
}
