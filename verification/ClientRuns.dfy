/**
 Runs of a job end: every move uses up some of a budget that the job fixes in
 advance, and as long as a node has not finished some move is possible.
 */
module ClientRuns {
  import opened Params
  import opened Messages
  import opened Layout
  import P = KvProtocol
  import HashMaps
  import KvLoad
  import KvSafety
  import KvProgress
  import opened FrameProtocol
  import opened FrameReads
  import opened Clients

  // ---------- the budget ----------

  /** What an action may cost: six for each key it may ask for, two for each pair it puts, and a little for itself. */
  ghost function Cost<L>(job: Job<L>, a: Action<L>): nat
    requires FramesFit(job.frames)
  {
    match a
    case Read(_, _, _, _) => 6 * |ReadKeys(job, a)| + 1
    case Publish(_, k, _, _, _) => if k in job.frames then 2 * |PutsOf(job.frames, k)| + 2 else 1
    case Work(_, _) => 1
  }

  ghost function CostFrom<L>(job: Job<L>, acts: seq<Action<L>>, pc: nat): nat
    requires FramesFit(job.frames)
    decreases |acts| - pc
  {
    if pc >= |acts| then 0 else Cost(job, acts[pc]) + CostFrom(job, acts, pc + 1)
  }

  function AppCost(app: P.App): nat {
    if app.Publishing? then 2 * |app.todo| + 1 else 0
  }

  ghost function Budget<L>(job: Job<L>, sys: System<L>, n: nat): int
    requires FramesFit(job.frames) && n < |sys.kv.nodes| && n < |sys.clients| && n < |job.progs|
  {
    CostFrom(job, job.progs[n], sys.clients[n].pc) - 6 * |sys.clients[n].asked| + AppCost(sys.kv.nodes[n].app)
  }

  ghost function Budgets<L>(job: Job<L>, sys: System<L>, j: nat): int
    requires FramesFit(job.frames) && j <= |sys.kv.nodes| && j <= |sys.clients| && j <= |job.progs|
  {
    if j == 0 then 0 else Budgets(job, sys, j - 1) + Budget(job, sys, j - 1)
  }

  /** The service under way and the budgets of all nodes. */
  ghost function Potential<L>(job: Job<L>, sys: System<L>): int
    requires FramesFit(job.frames) && |sys.kv.nodes| == |sys.clients| == |job.progs| == NUM_NODES
  {
    P.Load(P.Work, sys.kv.nodes) + Budgets(job, sys, NUM_NODES)
  }

  /** A node never asks more than its action allows. */
  lemma BudgetIsNat<L>(job: Job<L>, sys: System<L>, n: nat)
    requires Sound(job) && SystemOk(job, sys) && n < NUM_NODES
    ensures sys.clients[n].pc < |job.progs[n]| ==>
              6 * |sys.clients[n].asked| < Cost(job, job.progs[n][sys.clients[n].pc])
    ensures sys.clients[n].pc >= |job.progs[n]| ==> sys.clients[n].asked == {}
    ensures Budget(job, sys, n) >= 0
  {
    hide FramesFit, FrameReachable, PlanOf, SoundAll, OwnFirst, Out, ReadKeys, PutsOf;
    assert ClientOk(job, sys, n);
    var client, prog := sys.clients[n], job.progs[n];
    if client.pc < |prog| {
      HashMaps.SubsetSize(client.asked, ReadKeys(job, prog[client.pc]));
      NoKeys(job, prog[client.pc]);
    }
  }

  lemma NoKeys<L>(job: Job<L>, a: Action<L>)
    requires FramesFit(job.frames)
    ensures !a.Read? ==> ReadKeys(job, a) == {}
  {
  }

  lemma {:induction false} PotentialIsNat<L>(job: Job<L>, sys: System<L>, j: nat)
    requires Sound(job) && SystemOk(job, sys) && j <= NUM_NODES
    requires |sys.kv.nodes| == |sys.clients| == |job.progs| == NUM_NODES
    ensures Budgets(job, sys, j) >= 0
  {
    hide FramesFit, SystemOk, Sound, Budget;
    if j > 0 {
      PotentialIsNat(job, sys, j - 1);
      BudgetIsNat(job, sys, j - 1);
    }
  }

  /** A move that touches one node's budget changes the sum by as much. */
  lemma {:induction false} BudgetsChange<L>(job: Job<L>, sys: System<L>, sys': System<L>, n: nat, j: nat)
    requires FramesFit(job.frames) && |sys.kv.nodes| == |sys.clients| == |job.progs| == NUM_NODES
    requires |sys'.kv.nodes| == |sys'.clients| == NUM_NODES && n < NUM_NODES && j <= NUM_NODES
    requires forall m | 0 <= m < NUM_NODES && m != n :: Budget(job, sys', m) == Budget(job, sys, m)
    ensures Budgets(job, sys', j) ==
            Budgets(job, sys, j) + if n < j then Budget(job, sys', n) - Budget(job, sys, n) else 0
  {
    hide FramesFit, Budget;
    if j > 0 {
      BudgetsChange(job, sys, sys', n, j - 1);
    }
  }

  // ---------- what the moves cost ----------

  lemma SystemSizes<L>(job: Job<L>, sys: System<L>)
    requires Sound(job) && SystemOk(job, sys)
    ensures |sys.kv.nodes| == |sys.clients| == |job.progs| == NUM_NODES
  {
    hide FramesFit, FrameReachable;
  }

  /** The next action takes its cost out of the budget. */
  lemma ActionCosts<L>(job: Job<L>, sys: System<L>, n: nat, sys': System<L>)
    requires Sound(job) && SystemOk(job, sys) && n < NUM_NODES && sys.clients[n].pc < |job.progs[n]|
    requires |sys'.kv.nodes| == |sys'.clients| == NUM_NODES && !sys.kv.nodes[n].app.Publishing?
    requires sys'.clients[n].pc == sys.clients[n].pc + 1 && sys'.clients[n].asked == {}
    ensures var a := job.progs[n][sys.clients[n].pc];
            && Budget(job, sys', n) <= Budget(job, sys, n) - 1 + AppCost(sys'.kv.nodes[n].app)
            && (!a.Read? ==>
                  Budget(job, sys', n) == Budget(job, sys, n) - Cost(job, a) + AppCost(sys'.kv.nodes[n].app))
  {
    hide FramesFit, FrameReachable, PlanOf, SoundAll, OwnFirst, Out, ReadKeys, PutsOf, Cost;
    BudgetIsNat(job, sys, n);
    assert ClientOk(job, sys, n);
    NoKeys(job, job.progs[n][sys.clients[n].pc]);
  }

  lemma PublishCost<L>(job: Job<L>, n: nat, k: Key, a: Action<L>, app: P.App)
    requires FramesFit(job.frames) && a.Publish? && a.key == k && k in job.frames
    requires app == P.Publishing(PutsOf(job.frames, k))
    ensures AppCost(app) == Cost(job, a) - 1
  {
  }

  lemma PublishedApp(plan: P.Plan, s: P.State, st: P.Step)
    requires P.Enabled(plan, s, st) && st.Publish?
    ensures st.n < |s.nodes| && |P.Apply(plan, s, st).nodes| == |s.nodes|
    ensures P.Apply(plan, s, st).nodes[st.n].app == P.Publishing(st.todo) && s.nodes[st.n].app.Running?
    ensures forall m | 0 <= m < |s.nodes| && m != st.n :: P.Apply(plan, s, st).nodes[m].app == s.nodes[m].app
  {
  }

  lemma ActMoveCosts<L(!new)>(job: Job<L>, sys: System<L>, n: nat, sys': System<L>)
    requires Sound(job) && SystemOk(job, sys) && ActMove(job, sys, n, sys')
    ensures |sys'.kv.nodes| == |sys'.clients| == NUM_NODES && |sys.kv.nodes| == |sys.clients| == |job.progs| == NUM_NODES
    ensures Potential(job, sys') < Potential(job, sys)
  {
    hide FramesFit, FrameReachable, PlanOf, SoundAll, OwnFirst, HasRead, PutsOf, Budget, P.Apply, P.Enabled, SystemOk, Sound, Cost,
      P.Load;
    SystemSizes(job, sys);
    var a := job.progs[n][sys.clients[n].pc];
    if a.Publish? {
      PublishIsPlanned(job, sys, n);
      var st := P.Publish(n, a.key, PutsOf(job.frames, a.key));
      PublishedApp(PlanOf(job.frames), sys.kv, st);
      KvLoad.AppStepWork(PlanOf(job.frames), sys.kv, st);
      PublishCost(job, n, a.key, a, sys'.kv.nodes[n].app);
    }
    ActionCosts(job, sys, n, sys');
    forall m | 0 <= m < NUM_NODES && m != n ensures Budget(job, sys', m) == Budget(job, sys, m) {
      SameBudget(job, sys, sys', m);
    }
    BudgetsChange(job, sys, sys', n, NUM_NODES);
  }

  lemma SameBudget<L>(job: Job<L>, sys: System<L>, sys': System<L>, m: nat)
    requires FramesFit(job.frames) && m < |sys.kv.nodes| && m < |sys.clients| && m < |job.progs|
    requires m < |sys'.kv.nodes| && m < |sys'.clients|
    requires sys'.clients[m].pc == sys.clients[m].pc && sys'.clients[m].asked == sys.clients[m].asked
    requires AppCost(sys'.kv.nodes[m].app) == AppCost(sys.kv.nodes[m].app)
    ensures Budget(job, sys', m) == Budget(job, sys, m)
  {
  }

  /** How a step of the machine changes what its node still has to put. */
  lemma AppCostAfter(plan: P.Plan, s: P.State, st: P.Step, m: nat)
    requires P.Enabled(plan, s, st) && !st.Publish? && m < |s.nodes|
    ensures |P.Apply(plan, s, st).nodes| == |s.nodes|
    ensures var app, app' := s.nodes[m].app, P.Apply(plan, s, st).nodes[m].app;
            AppCost(app') == AppCost(app) -
              if st == P.PutNext(m) then if app.todo == [] then 1 else 2 else 0
  {
  }

  lemma AskCosts<L>(job: Job<L>, sys: System<L>, sys': System<L>, n: nat, k: Key)
    requires FramesFit(job.frames) && n < |sys.kv.nodes| && n < |sys.clients| && n < |job.progs| && n < |sys'.kv.nodes|
    requires sys'.clients == Asks(sys, n, k).clients && k !in sys.clients[n].asked
    requires AppCost(sys'.kv.nodes[n].app) == AppCost(sys.kv.nodes[n].app)
    ensures Budget(job, sys', n) == Budget(job, sys, n) - 6
  {
    assert sys'.clients[n].asked == sys.clients[n].asked + {k};
  }

  lemma AskIsNew<L>(job: Job<L>, sys: System<L>, n: nat, k: Key)
    requires Wants(job, sys, n, k)
    ensures n < |sys.clients| && k !in sys.clients[n].asked
  {
  }

  lemma PutNextCosts<L>(job: Job<L>, sys: System<L>, sys': System<L>, n: nat)
    requires FramesFit(job.frames) && n < |sys.kv.nodes| && n < |sys.clients| && n < |job.progs|
    requires n < |sys'.kv.nodes| && sys'.clients == sys.clients
    ensures Budget(job, sys', n) == Budget(job, sys, n) - AppCost(sys.kv.nodes[n].app) + AppCost(sys'.kv.nodes[n].app)
  {
  }

  lemma KvMoveCosts<L>(job: Job<L>, sys: System<L>, st: P.Step, sys': System<L>)
    requires Sound(job) && SystemOk(job, sys) && KvMove(job, sys, st, sys') && !st.Stop?
    ensures |sys'.kv.nodes| == |sys'.clients| == NUM_NODES && |sys.kv.nodes| == |sys.clients| == |job.progs| == NUM_NODES
    ensures Potential(job, sys') < Potential(job, sys)
  {
    hide FramesFit, FrameReachable, PlanOf, SoundAll, OwnFirst, Budget, P.Apply, Wants, SystemOk, Sound, AppCost, P.Load;
    var plan, n := PlanOf(job.frames), st.n;
    SystemSizes(job, sys);
    forall m | 0 <= m < NUM_NODES && (m != n || KvLoad.IsService(st))
      ensures m < |sys'.kv.nodes| && Budget(job, sys', m) == Budget(job, sys, m)
    {
      AppCostAfter(plan, sys.kv, st, m);
      SameBudget(job, sys, sys', m);
    }
    AppCostAfter(plan, sys.kv, st, n);
    BudgetsChange(job, sys, sys', n, NUM_NODES);
    if KvLoad.IsService(st) {
      ServiceWork(job, sys, st);
    } else {
      KvLoad.AppStepWork(plan, sys.kv, st);
      if st.Ask? {
        AskIsNew(job, sys, n, st.key);
        AskCosts(job, sys, sys', n, st.key);
      } else {
        PutNextCosts(job, sys, sys', n);
      }
    }
  }

  lemma ServiceWork<L>(job: Job<L>, sys: System<L>, st: P.Step)
    requires Sound(job) && SystemOk(job, sys) && P.Enabled(PlanOf(job.frames), sys.kv, st) && KvLoad.IsService(st)
    ensures P.Load(P.Work, P.Apply(PlanOf(job.frames), sys.kv, st).nodes) == P.Load(P.Work, sys.kv.nodes) - 1
  {
    hide FramesFit, FrameReachable, PlanOf, SoundAll, OwnFirst, ClientOk, P.Enabled, P.Apply, P.Reachable, P.WellFormed;
    FrameReachableContent(job.frames, sys.kv);
    PlanIsWellFormed(job.frames);
    KvProgress.ServiceUsesUpWork(PlanOf(job.frames), sys.kv, st);
  }

  // ---------- runs without kills ----------

  ghost predicate IsQuietRun<L(!new)>(job: Job<L>, run: seq<System<L>>)
    requires FramesFit(job.frames)
  {
    && |run| > 0
    && Begins(job, run[0])
    && forall i | 0 <= i < |run| - 1 :: Advances(job, run[i], run[i + 1])
  }

  lemma QuietRunIsRun<L(!new)>(job: Job<L>, run: seq<System<L>>)
    requires FramesFit(job.frames) && IsQuietRun(job, run)
    ensures IsSystemRun(job, run) && SystemReachable(job, run[|run| - 1])
  {
    hide FramesFit, KvMove, ActMove, Begins;
    forall i | 0 <= i < |run| - 1 ensures Moves(job, run[i], run[i + 1]) {
      assert Advances(job, run[i], run[i + 1]);
    }
  }

  /** No servicer was killed, and none will be. */
  predicate AllServe(s: P.State) {
    forall n | 0 <= n < |s.nodes| :: s.nodes[n].serving && forall m <- s.nodes[n].inbox :: !m.Kill?
  }

  lemma StepServes(plan: P.Plan, s: P.State, st: P.Step)
    requires P.Enabled(plan, s, st) && !st.Stop? && AllServe(s)
    ensures AllServe(P.Apply(plan, s, st))
  {
  }

  lemma MoveServes<L(!new)>(job: Job<L>, sys: System<L>, sys': System<L>)
    requires FramesFit(job.frames) && Advances(job, sys, sys') && AllServe(sys.kv)
    ensures AllServe(sys'.kv)
  {
    hide FramesFit, PlanOf, P.Apply, P.Enabled, Wants, HasRead, AllServe;
    if st: P.Step :| !st.Stop? && KvMove(job, sys, st, sys') {
      StepServes(PlanOf(job.frames), sys.kv, st);
    } else {
      var n: nat :| ActMove(job, sys, n, sys');
      var a := job.progs[n][sys.clients[n].pc];
      if a.Publish? {
        var rows := a.make(sys.clients[n].value);
        StepServes(PlanOf(job.frames), sys.kv, P.Publish(n, a.key, Publication(a.key, a.types, rows, a.count(|rows|))));
      }
    }
  }

  lemma MoveCosts<L(!new)>(job: Job<L>, sys: System<L>, sys': System<L>)
    requires Sound(job) && SystemOk(job, sys) && Advances(job, sys, sys')
    ensures |sys'.kv.nodes| == |sys'.clients| == NUM_NODES && |sys.kv.nodes| == |sys.clients| == |job.progs| == NUM_NODES
    ensures Potential(job, sys') < Potential(job, sys)
  {
    hide Sound, SystemOk, KvMove, ActMove, Potential;
    if st: P.Step :| !st.Stop? && KvMove(job, sys, st, sys') {
      KvMoveCosts(job, sys, st, sys');
    } else {
      var n: nat :| ActMove(job, sys, n, sys');
      ActMoveCosts(job, sys, n, sys');
    }
  }

  /** The moves made and the potential left are no more than the potential at the start. */
  lemma {:induction false} QuietRunCosts<L(!new)>(job: Job<L>, run: seq<System<L>>)
    requires Sound(job) && IsQuietRun(job, run)
    ensures |run[0].kv.nodes| == |run[0].clients| == |job.progs| == NUM_NODES
    ensures |run[|run| - 1].kv.nodes| == |run[|run| - 1].clients| == NUM_NODES
    ensures |run| - 1 + Potential(job, run[|run| - 1]) <= Potential(job, run[0])
    ensures AllServe(run[|run| - 1].kv)
  {
    hide Sound, SystemOk, Potential, Advances, Begins, AllServe;
    if |run| == 1 {
      BeginsSize(job, run[0]);
    } else {
      var prefix := run[..|run| - 1];
      forall i | 0 <= i < |prefix| - 1 ensures Advances(job, prefix[i], prefix[i + 1]) {
        assert Advances(job, run[i], run[i + 1]);
      }
      QuietRunCosts(job, prefix);
      QuietRunIsRun(job, prefix);
      var sys, sys' := run[|run| - 2], run[|run| - 1];
      assert Advances(job, sys, sys');
      ReachableOk(job, sys);
      MoveCosts(job, sys, sys');
      MoveServes(job, sys, sys');
    }
  }

  lemma BeginsSize<L>(job: Job<L>, sys: System<L>)
    requires Sound(job) && Begins(job, sys)
    ensures |sys.kv.nodes| == |sys.clients| == |job.progs| == NUM_NODES && AllServe(sys.kv)
  {
    hide FramesFit, SoundAll, OwnFirst;
  }

  // ---------- the theorem ----------

  /**
   Every run without kills ends, after a number of moves fixed in advance, and
   until all nodes have finished it can be continued.
   */
  lemma EveryRunEnds<L(!new)>(job: Job<L>, run: seq<System<L>>)
    requires Sound(job) && Timed(job) && IsQuietRun(job, run)
    ensures |run[0].kv.nodes| == |run[0].clients| == |job.progs| == NUM_NODES
    ensures |run| - 1 <= Potential(job, run[0])
    ensures Finished(job, run[|run| - 1]) || exists sys' :: IsQuietRun(job, run + [sys'])
  {
    hide Sound, Timed, Potential, Advances, Finished, SystemOk, Budgets;
    QuietRunCosts(job, run);
    QuietRunIsRun(job, run);
    var sys := run[|run| - 1];
    ReachableOk(job, sys);
    LeftIsNat(job, sys);
    if !Finished(job, sys) {
      NobodyIsStuck(job, sys);
      var sys' :| Advances(job, sys, sys');
      var more := run + [sys'];
      forall i | 0 <= i < |more| - 1 ensures Advances(job, more[i], more[i + 1]) {
        if i < |run| - 1 {
          assert Advances(job, run[i], run[i + 1]);
        }
      }
      assert IsQuietRun(job, more);
    }
  }

  lemma LeftIsNat<L>(job: Job<L>, sys: System<L>)
    requires Sound(job) && SystemOk(job, sys) && |sys.kv.nodes| == |sys.clients| == |job.progs| == NUM_NODES
    ensures Potential(job, sys) >= 0
  {
    hide Sound, SystemOk, Budgets;
    PotentialIsNat(job, sys, NUM_NODES);
  }
}
