/**
 Applications as clients of the step machine. Each node runs a fixed list of
 actions; a read of a frame takes as many messages as it takes, and the nodes
 interleave in every way the machine allows. What a node has computed after
 an action never depends on the interleaving.
 */
module Clients {
  import opened Params
  import opened Messages
  import opened Wire
  import opened Layout
  import P = KvProtocol
  import KvSafety
  import KvCausality
  import KvProgress
  import opened FrameProtocol
  import opened FrameReads

  /**
   One action on a local value: read a frame, or the part of it homed on the
   node; publish a frame; or compute. The times order the actions of all nodes
   so that frames are published before they are read.
   */
  datatype Action<!L> =
    | Read(time: nat, key: Key, local: bool, take: (L, seq<Row>) -> L)
    | Publish(time: nat, key: Key, types: seq<char>, make: L -> seq<Row>, count: nat -> nat)
    | Work(time: nat, change: L -> L)

  /** The frames of a run, and each node's actions and first value. */
  datatype Job<!L> = Job(frames: map<Key, Frame>, progs: seq<seq<Action<L>>>, inits: seq<L>)

  /** A node's next action, its value, and the keys it has asked for in the action. */
  datatype Client<L> = Client(pc: nat, value: L, asked: set<Key>)

  datatype System<L> = System(kv: P.State, clients: seq<Client<L>>)

  // ---------- the reference: every node on its own ----------

  function Do<L>(frames: map<Key, Frame>, n: nat, l: L, a: Action<L>): L {
    match a
    case Read(_, k, local, take) => if k in frames then take(l, RowsFor(k, frames[k].rows, n, local)) else l
    case Publish(_, _, _, _, _) => l
    case Work(_, change) => change(l)
  }

  function DoAll<L>(frames: map<Key, Frame>, n: nat, l: L, acts: seq<Action<L>>): L {
    if acts == [] then l else Do(frames, n, DoAll(frames, n, l, acts[..|acts| - 1]), acts[|acts| - 1])
  }

  /** The value of node `n` before its action at `pc`. */
  function ValueAt<L>(job: Job<L>, n: nat, pc: nat): L
    requires n < |job.progs| && n < |job.inits| && pc <= |job.progs[n]|
  {
    DoAll(job.frames, n, job.inits[n], job.progs[n][..pc])
  }

  /** Reads are of known frames, and what is published is what the frames say. */
  ghost predicate SoundAt<L>(frames: map<Key, Frame>, l: L, a: Action<L>) {
    match a
    case Read(_, k, _, _) => k in frames
    case Publish(_, k, types, make, count) => k in frames && frames[k] == Frame(types, make(l), count(|make(l)|))
    case Work(_, _) => true
  }

  ghost predicate SoundAll<L>(frames: map<Key, Frame>, n: nat, l: L, acts: seq<Action<L>>) {
    forall i | 0 <= i < |acts| :: SoundAt(frames, DoAll(frames, n, l, acts[..i]), acts[i])
  }

  predicate Publishes<L>(acts: seq<Action<L>>, k: Key) {
    exists i | 0 <= i < |acts| :: acts[i].Publish? && acts[i].key == k
  }

  /** A node reads a frame of its own only after publishing it. */
  ghost predicate OwnFirst<L>(acts: seq<Action<L>>, n: nat) {
    forall i | 0 <= i < |acts| && acts[i].Read? && acts[i].key.node == n :: Publishes(acts[..i], acts[i].key)
  }

  ghost predicate Sound<L>(job: Job<L>)
    ensures Sound(job) ==> FramesFit(job.frames)
  {
    && FramesFit(job.frames)
    && |job.progs| == |job.inits| == NUM_NODES
    && forall n | 0 <= n < NUM_NODES :: SoundAll(job.frames, n, job.inits[n], job.progs[n]) && OwnFirst(job.progs[n], n)
  }

  // ---------- the moves ----------

  datatype Move = Kv(st: P.Step) | Act(n: nat)

  /** A chunk that the schema at hand says belongs to the read. */
  ghost predicate NeedsChunk(held: map<Key, Blob>, k: Key, local: bool, n: nat, ck: Key) {
    k in held &&
    exists types: seq<char>, height: nat, j: nat, c: nat ::
      && |types| < SIZE_LIMIT && height < SIZE_LIMIT && held[k] == EncSchema(Schema(types, height))
      && j < |types| && c < NumChunks(height) && (local ==> HomeOf(k, c) == n)
      && ck == ChunkKey(k, j, c)
  }

  /** A reading node asks for the schema first, and then for the chunks it needs, each once. */
  ghost predicate Wants<L>(job: Job<L>, sys: System<L>, n: nat, k: Key) {
    && n < |sys.kv.nodes| && n < |sys.clients| && n < |job.progs|
    && sys.clients[n].pc < |job.progs[n]|
    && var a := job.progs[n][sys.clients[n].pc];
       a.Read? && k !in sys.clients[n].asked && (k == a.key || NeedsChunk(sys.kv.nodes[n].held, a.key, a.local, n, k))
  }

  ghost predicate KvMove<L>(job: Job<L>, sys: System<L>, st: P.Step, sys': System<L>)
    requires FramesFit(job.frames)
  {
    var plan := PlanOf(job.frames);
    && P.Enabled(plan, sys.kv, st) && !st.Publish?
    && (st.Ask? ==> Wants(job, sys, st.n, st.key))
    && sys' == (if st.Ask? then Asks(sys, st.n, st.key) else sys).(kv := P.Apply(plan, sys.kv, st))
  }

  function Asks<L>(sys: System<L>, n: nat, k: Key): System<L> {
    if n < |sys.clients|
    then sys.(clients := sys.clients[n := sys.clients[n].(asked := sys.clients[n].asked + {k})])
    else sys
  }

  ghost predicate ActMove<L(!new)>(job: Job<L>, sys: System<L>, n: nat, sys': System<L>)
    requires FramesFit(job.frames)
  {
    && n < |sys.kv.nodes| && sys.kv.nodes[n].app.Running?
    && n < |sys.clients| && n < |job.progs| && sys.clients[n].pc < |job.progs[n]|
    && var node, client, a := sys.kv.nodes[n], sys.clients[n], job.progs[n][sys.clients[n].pc];
       match a
       case Read(_, k, local, take) =>
         exists types, rows :: HasRead(node.held, k, types, rows, n, local) &&
                               sys' == Done(sys, n, take(client.value, RowsFor(k, rows, n, local)))
       case Publish(_, k, types, make, count) =>
         var rows := make(client.value);
         && FrameFits(types, rows)
         && var st := P.Publish(n, k, Publication(k, types, rows, count(|rows|)));
            P.Enabled(PlanOf(job.frames), sys.kv, st) &&
            sys' == Done(sys, n, client.value).(kv := P.Apply(PlanOf(job.frames), sys.kv, st))
       case Work(_, change) => sys' == Done(sys, n, change(client.value))
  }

  function Done<L>(sys: System<L>, n: nat, l: L): System<L>
    requires n < |sys.clients|
  {
    sys.(clients := sys.clients[n := Client(sys.clients[n].pc + 1, l, {})])
  }

  ghost predicate Moves<L(!new)>(job: Job<L>, sys: System<L>, sys': System<L>)
    requires FramesFit(job.frames)
  {
    (exists st: P.Step :: KvMove(job, sys, st, sys')) || (exists n :: ActMove(job, sys, n, sys'))
  }

  ghost predicate Begins<L>(job: Job<L>, sys: System<L>) {
    && P.Init(sys.kv)
    && |sys.clients| == |job.inits|
    && forall n | 0 <= n < |sys.clients| :: sys.clients[n] == Client(0, job.inits[n], {})
  }

  ghost predicate IsSystemRun<L(!new)>(job: Job<L>, run: seq<System<L>>)
    requires FramesFit(job.frames)
  {
    && |run| > 0
    && Begins(job, run[0])
    && forall i | 0 <= i < |run| - 1 :: Moves(job, run[i], run[i + 1])
  }

  // ---------- what every move keeps ----------

  /** The frame has been published: the schema is at hand, and stored if it is homed here; or it is on its way out. */
  ghost predicate Out(node: P.Node, n: nat, k: Key) {
    || (k in node.held && (k.node == n ==> k in node.entries))
    || (node.app.Publishing? && exists i | 0 <= i < |node.app.todo| :: node.app.todo[i].0 == k)
  }

  /** A wait is for the schema or a chunk of the frame being read. */
  ghost predicate WaitsFor<L>(job: Job<L>, sys: System<L>, n: nat)
    requires FramesFit(job.frames) && n < |sys.kv.nodes| && n < |sys.clients| && n < |job.progs|
  {
    var node, client, prog := sys.kv.nodes[n], sys.clients[n], job.progs[n];
    node.app.Waiting? ==>
      && client.pc < |prog| && prog[client.pc].Read?
      && var k := prog[client.pc].key;
         node.app.want == k || (k in node.held && k in PlanOf(job.frames) && node.app.want in PlanOf(job.frames)[k])
  }

  /** The keys a read may ask for. */
  ghost function ReadKeys<L>(job: Job<L>, a: Action<L>): set<Key>
    requires FramesFit(job.frames)
  {
    if !a.Read? then {}
    else {a.key} + if a.key in PlanOf(job.frames) then (set k | k in PlanOf(job.frames)[a.key]) else {}
  }

  /** What was asked for is at hand or waited for, and belongs to the read. */
  ghost predicate AskedOk<L>(job: Job<L>, sys: System<L>, n: nat)
    requires FramesFit(job.frames) && n < |sys.kv.nodes| && n < |sys.clients| && n < |job.progs|
  {
    var node, client, prog := sys.kv.nodes[n], sys.clients[n], job.progs[n];
    && (forall k <- client.asked :: k in node.held || node.app == P.Waiting(k))
    && client.asked <= if client.pc < |prog| then ReadKeys(job, prog[client.pc]) else {}
  }

  ghost predicate ClientOk<L>(job: Job<L>, sys: System<L>, n: nat)
    requires FramesFit(job.frames) && n < |sys.kv.nodes| && n < |sys.clients| && n < |job.progs| && n < |job.inits|
  {
    var node, client, prog := sys.kv.nodes[n], sys.clients[n], job.progs[n];
    && client.pc <= |prog| && client.value == ValueAt(job, n, client.pc)
    && (forall q | 0 <= q < client.pc && prog[q].Publish? :: Out(node, n, prog[q].key))
    && !node.app.Aborted?
    && WaitsFor(job, sys, n)
    && AskedOk(job, sys, n)
  }

  ghost predicate SystemOk<L>(job: Job<L>, sys: System<L>)
    requires Sound(job)
  {
    && FrameReachable(job.frames, sys.kv)
    && |sys.kv.nodes| == |sys.clients| == NUM_NODES
    && forall n | 0 <= n < NUM_NODES :: ClientOk(job, sys, n)
  }

  lemma FrameRunExtends(frames: map<Key, Frame>, s: P.State, st: P.Step)
    requires FramesFit(frames) && FrameReachable(frames, s) && FrameStep(frames, s, st)
    ensures FrameReachable(frames, P.Apply(PlanOf(frames), s, st))
  {
    hide FramesFit, PlanOf, PutsOf, P.Enabled, P.Apply;
    var s' := P.Apply(PlanOf(frames), s, st);
    var run :| IsFrameRun(frames, run) && run[|run| - 1] == s;
    var run' := run + [s'];
    forall i | 0 <= i < |run'| - 1 ensures FrameNext(frames, run'[i], run'[i + 1]) {
      if i < |run| - 1 {
        assert FrameNext(frames, run[i], run[i + 1]);
      }
    }
    assert IsFrameRun(frames, run') && run'[|run'| - 1] == s';
  }

  /** No node forgets a value, and only the node that moves changes what its application does. */
  lemma StepKeeps(plan: P.Plan, s: P.State, st: P.Step, n: nat)
    requires P.Enabled(plan, s, st) && n < |s.nodes|
    ensures var s' := P.Apply(plan, s, st);
            && |s'.nodes| == |s.nodes|
            && s.nodes[n].held.Keys <= s'.nodes[n].held.Keys
            && s.nodes[n].entries.Keys <= s'.nodes[n].entries.Keys
            && (n != st.n || P.Serve(n) == st || st.Answer? || st.Stop? ==> s'.nodes[n].app == s.nodes[n].app)
  {
  }

  /** What was out stays out. */
  lemma StaysOut(plan: P.Plan, s: P.State, st: P.Step, n: nat, k: Key)
    requires P.Enabled(plan, s, st) && n < |s.nodes| && k in plan && Out(s.nodes[n], n, k)
    ensures Out(P.Apply(plan, s, st).nodes[n], n, k)
  {
    StepKeeps(plan, s, st, n);
    var node, node' := s.nodes[n], P.Apply(plan, s, st).nodes[n];
    if !(k in node.held && (k.node == n ==> k in node.entries)) && st == P.PutNext(n) {
      var todo := node.app.todo;
      var i :| 0 <= i < |todo| && todo[i].0 == k;
      if i > 0 {
        assert node'.app.todo[i - 1].0 == k;
      }
    }
  }

  // ---------- reads give contents ----------

  /** What is read of a frame is what was published. */
  lemma ReadGivesContent(frames: map<Key, Frame>, s: P.State, n: nat, k: Key, types: seq<char>, rows: seq<Row>, local: bool)
    requires FramesFit(frames) && FrameReachable(frames, s) && n < |s.nodes| && k in frames
    requires HasRead(s.nodes[n].held, k, types, rows, n, local)
    ensures RowsFor(k, rows, n, local) == RowsFor(k, frames[k].rows, n, local)
  {
    hide EncSchema, ChunkBlob, ChunkKey, NumChunks, FrameFits, FrameReachable, RowsFor, HomeOf;
    var f, held := frames[k], s.nodes[n].held;
    SchemaFetched(frames, s, n, k);
    SizesFit(types, rows);
    SizesFit(f.types, f.rows);
    SameSchema(Schema(types, |rows|), Schema(f.types, |f.rows|));
    forall j, c | 0 <= j < |f.types| && 0 <= c < NumChunks(|f.rows|) && (local ==> HomeOf(k, c) == n)
      ensures HoldsChunk(held, k, f.types, f.rows, j, c)
    {
      assert HoldsChunk(held, k, types, rows, j, c);
      FetchedIsContent(frames, s, n, k, j, c);
    }
    ReadIsUnique(held, k, types, rows, f.types, f.rows, n, local);
  }

  lemma SizesFit(types: seq<char>, rows: seq<Row>)
    requires FrameFits(types, rows)
    ensures |types| < SIZE_LIMIT && |rows| < SIZE_LIMIT
  {
  }

  lemma SchemaFetched(frames: map<Key, Frame>, s: P.State, n: nat, k: Key)
    requires FramesFit(frames) && FrameReachable(frames, s) && n < |s.nodes| && k in frames && k in s.nodes[n].held
    ensures s.nodes[n].held[k] == EncSchema(Schema(frames[k].types, |frames[k].rows|))
  {
    hide FramesFit, FrameReachable, AllPuts;
    HandedIsStored(frames, s, n, k);
    StoredContent(frames, s, k);
  }

  /** A chunk the schema calls for is a chunk of the frame. */
  lemma NeededIsPlanned(frames: map<Key, Frame>, s: P.State, n: nat, k: Key, local: bool, ck: Key)
    requires FramesFit(frames) && FrameReachable(frames, s) && n < |s.nodes| && k in frames
    requires NeedsChunk(s.nodes[n].held, k, local, n, ck)
    ensures k in PlanOf(frames) && ck in PlanOf(frames)[k]
    ensures ck.node == n ==> ck in s.nodes[n].entries
  {
    hide EncSchema, FrameFits, FrameReachable, HomeOf, NumChunks;
    var f, held := frames[k], s.nodes[n].held;
    var types: seq<char>, height: nat, j: nat, c: nat :|
      && |types| < SIZE_LIMIT && height < SIZE_LIMIT && held[k] == EncSchema(Schema(types, height))
      && j < |types| && c < NumChunks(height) && (local ==> HomeOf(k, c) == n)
      && ck == ChunkKey(k, j, c);
    SchemaFetched(frames, s, n, k);
    SizesFit(f.types, f.rows);
    SameSchema(Schema(types, height), Schema(f.types, |f.rows|));
    PlannedKeys(frames, k, ck);
    PlannedIsLocal(frames, s, n, k, ck);
  }

  lemma PlannedIsLocal(frames: map<Key, Frame>, s: P.State, n: nat, k: Key, ck: Key)
    requires FramesFit(frames) && FrameReachable(frames, s) && n < |s.nodes| && k in frames && k in s.nodes[n].held
    requires ck in PlanOf(frames)[k]
    ensures ck.node == n ==> ck in s.nodes[n].entries
  {
    hide FramesFit, FrameReachable, PlanOf, P.WellFormed, P.Reachable;
    FrameReachableContent(frames, s);
    PlanIsWellFormed(frames);
    PlanKeys(frames);
    if ck.node == n {
      KvCausality.SchemaHolderHasChunks(PlanOf(frames), s, n, k, ck);
    }
  }

  // ---------- moves of the machine ----------

  /** A node never asks itself for what it does not have. */
  lemma AskFinds<L>(job: Job<L>, sys: System<L>, n: nat, k: Key)
    requires Sound(job) && SystemOk(job, sys) && n < NUM_NODES && Wants(job, sys, n, k)
    requires sys.kv.nodes[n].app.Running?
    ensures k.node == n ==> k in sys.kv.nodes[n].entries
    ensures var a := job.progs[n][sys.clients[n].pc];
            k == a.key || (a.key in sys.kv.nodes[n].held && a.key in PlanOf(job.frames) && k in PlanOf(job.frames)[a.key])
  {
    hide FramesFit, FrameReachable, PlanOf, NeedsChunk;
    var node, client, prog := sys.kv.nodes[n], sys.clients[n], job.progs[n];
    var a := prog[client.pc];
    assert ClientOk(job, sys, n);
    assert SoundAll(job.frames, n, job.inits[n], prog) && OwnFirst(prog, n);
    assert SoundAt(job.frames, DoAll(job.frames, n, job.inits[n], prog[..client.pc]), a);
    if k != a.key {
      NeededIsPlanned(job.frames, sys.kv, n, a.key, a.local, k);
      NeededHasSchema(node.held, a.key, a.local, n, k);
    } else if k.node == n {
      var q :| 0 <= q < client.pc && prog[..client.pc][q].Publish? && prog[..client.pc][q].key == k;
      assert prog[q].Publish? && prog[q].key == k;
      assert Out(node, n, k);
    }
  }

  lemma NeededHasSchema(held: map<Key, Blob>, k: Key, local: bool, n: nat, ck: Key)
    requires NeedsChunk(held, k, local, n, ck)
    ensures k in held
  {
  }

  lemma PublishedIsPlanned<L>(job: Job<L>, n: nat, q: nat)
    requires Sound(job) && n < NUM_NODES && q < |job.progs[n]| && job.progs[n][q].Publish?
    ensures job.progs[n][q].key in PlanOf(job.frames)
  {
    hide FramesFit;
    assert SoundAll(job.frames, n, job.inits[n], job.progs[n]);
    assert SoundAt(job.frames, DoAll(job.frames, n, job.inits[n], job.progs[n][..q]), job.progs[n][q]);
    PlanKeys(job.frames);
  }

  /** What was asked for arrives, or is still waited for. */
  lemma AskedAfter(plan: P.Plan, s: P.State, st: P.Step, n: nat, k: Key)
    requires P.Enabled(plan, s, st) && n < |s.nodes|
    requires k in s.nodes[n].held || s.nodes[n].app == P.Waiting(k) ||
             (st == P.Ask(n, k) && (k.node == n ==> k in s.nodes[n].entries))
    ensures var node' := P.Apply(plan, s, st).nodes[n]; k in node'.held || node'.app == P.Waiting(k)
  {
    StepKeeps(plan, s, st, n);
  }

  lemma KvMoveKeepsAsked<L>(job: Job<L>, sys: System<L>, st: P.Step, sys': System<L>, n: nat)
    requires Sound(job) && SystemOk(job, sys) && KvMove(job, sys, st, sys') && n < NUM_NODES
    ensures n < |sys'.kv.nodes| && AskedOk(job, sys', n)
  {
    hide FramesFit, FrameReachable, PlanOf, P.Apply, P.Enabled, Wants, Out, SoundAll, OwnFirst;
    var plan := PlanOf(job.frames);
    StepKeeps(plan, sys.kv, st, n);
    assert ClientOk(job, sys, n);
    if st.Ask? && st.n == n {
      AskedWhileRunning(plan, sys.kv, st);
      AskFinds(job, sys, n, st.key);
      WantsRead(job, sys, n, st.key);
    }
    forall k <- sys'.clients[n].asked ensures k in sys'.kv.nodes[n].held || sys'.kv.nodes[n].app == P.Waiting(k) {
      AskedAfter(plan, sys.kv, st, n, k);
    }
  }

  lemma KvMoveKeepsClient<L>(job: Job<L>, sys: System<L>, st: P.Step, sys': System<L>, n: nat)
    requires Sound(job) && SystemOk(job, sys) && KvMove(job, sys, st, sys') && n < NUM_NODES
    ensures n < |sys'.kv.nodes| && ClientOk(job, sys', n)
  {
    hide FramesFit, FrameReachable, PlanOf, P.Apply, P.Enabled, Wants, Out, SoundAll, OwnFirst;
    var plan := PlanOf(job.frames);
    var node, client, prog := sys.kv.nodes[n], sys.clients[n], job.progs[n];
    assert ClientOk(job, sys, n);
    StepKeeps(plan, sys.kv, st, n);
    forall q | 0 <= q < client.pc && prog[q].Publish? ensures Out(sys'.kv.nodes[n], n, prog[q].key) {
      PublishedIsPlanned(job, n, q);
      StaysOut(plan, sys.kv, st, n, prog[q].key);
    }
    AppAfter(plan, sys.kv, st, n);
    if st.Ask? && st.n == n {
      AskedWhileRunning(plan, sys.kv, st);
      AskFinds(job, sys, n, st.key);
      WantsRead(job, sys, n, st.key);
    }
    KvMoveKeepsAsked(job, sys, st, sys', n);
  }

  lemma WantsRead<L>(job: Job<L>, sys: System<L>, n: nat, k: Key)
    requires Wants(job, sys, n, k)
    ensures n < |sys.clients| && n < |job.progs| && sys.clients[n].pc < |job.progs[n]| && job.progs[n][sys.clients[n].pc].Read?
  {
  }

  lemma AskedWhileRunning(plan: P.Plan, s: P.State, st: P.Step)
    requires P.Enabled(plan, s, st) && st.Ask?
    ensures st.n < |s.nodes| && s.nodes[st.n].app.Running?
  {
  }

  /** An application waits or aborts only through an ask of its own. */
  lemma AppAfter(plan: P.Plan, s: P.State, st: P.Step, n: nat)
    requires P.Enabled(plan, s, st) && n < |s.nodes|
    ensures n < |P.Apply(plan, s, st).nodes|
    ensures var node, app' := s.nodes[n], P.Apply(plan, s, st).nodes[n].app;
            && (app'.Aborted? ==> node.app.Aborted? || (st.Ask? && st.n == n && st.key.node == n && st.key !in node.entries))
            && (app'.Waiting? ==> app' == node.app || (st.Ask? && st.n == n && app'.want == st.key))
  {
  }

  lemma KvMoveOk<L>(job: Job<L>, sys: System<L>, st: P.Step, sys': System<L>)
    requires Sound(job) && SystemOk(job, sys) && KvMove(job, sys, st, sys')
    ensures SystemOk(job, sys')
  {
    hide FramesFit, FrameReachable, PlanOf, P.Apply, P.Enabled, ClientOk, SoundAll, OwnFirst;
    forall n | 0 <= n < NUM_NODES ensures n < |sys'.kv.nodes| && ClientOk(job, sys', n) {
      KvMoveKeepsClient(job, sys, st, sys', n);
    }
    FrameRunExtends(job.frames, sys.kv, st);
    StepKeeps(PlanOf(job.frames), sys.kv, st, 0);
  }

  // ---------- moves of the clients ----------

  lemma ValueNext<L>(job: Job<L>, n: nat, pc: nat)
    requires n < |job.progs| && n < |job.inits| && pc < |job.progs[n]|
    ensures ValueAt(job, n, pc + 1) == Do(job.frames, n, ValueAt(job, n, pc), job.progs[n][pc])
  {
    var acts := job.progs[n][..pc + 1];
    assert acts[..|acts| - 1] == job.progs[n][..pc];
  }

  lemma SoundHere<L>(job: Job<L>, n: nat, pc: nat)
    requires Sound(job) && n < NUM_NODES && pc < |job.progs[n]|
    ensures SoundAt(job.frames, ValueAt(job, n, pc), job.progs[n][pc])
  {
    assert SoundAll(job.frames, n, job.inits[n], job.progs[n]);
  }

  /** Another node's client is not touched. */
  lemma OthersKeep<L>(job: Job<L>, sys: System<L>, n: nat, l: L, m: nat)
    requires Sound(job) && SystemOk(job, sys) && n < NUM_NODES && m < NUM_NODES && m != n
    ensures ClientOk(job, Done(sys, n, l), m)
  {
    hide FramesFit, FrameReachable, PlanOf, Out;
    assert ClientOk(job, sys, m);
  }

  /** Reading and computing lead from one value of the reference to the next. */
  lemma LocalMoveOk<L>(job: Job<L>, sys: System<L>, n: nat, l: L)
    requires Sound(job) && SystemOk(job, sys) && n < NUM_NODES && sys.kv.nodes[n].app.Running?
    requires sys.clients[n].pc < |job.progs[n]| && !job.progs[n][sys.clients[n].pc].Publish?
    requires l == Do(job.frames, n, sys.clients[n].value, job.progs[n][sys.clients[n].pc])
    ensures SystemOk(job, Done(sys, n, l))
  {
    hide FramesFit, FrameReachable, PlanOf, Out, SoundAll, OwnFirst;
    var sys' := Done(sys, n, l);
    assert ClientOk(job, sys, n);
    ValueNext(job, n, sys.clients[n].pc);
    forall m | 0 <= m < NUM_NODES ensures ClientOk(job, sys', m) {
      if m != n {
        OthersKeep(job, sys, n, l, m);
      }
    }
  }

  /** What a client publishes is the frame of the plan. */
  lemma PublishIsPlanned<L>(job: Job<L>, sys: System<L>, n: nat)
    requires Sound(job) && SystemOk(job, sys) && n < NUM_NODES
    requires sys.clients[n].pc < |job.progs[n]| && job.progs[n][sys.clients[n].pc].Publish?
    ensures var a := job.progs[n][sys.clients[n].pc];
            var rows := a.make(sys.clients[n].value);
            && a.key in job.frames && FrameFits(a.types, rows)
            && Publication(a.key, a.types, rows, a.count(|rows|)) == PutsOf(job.frames, a.key)
            && P.PublicationOf(PlanOf(job.frames), a.key, PutsOf(job.frames, a.key))
  {
    hide PlanOf, FrameReachable, Out, SoundAll, OwnFirst, FrameFits, Publication;
    assert ClientOk(job, sys, n);
    SoundHere(job, n, sys.clients[n].pc);
    LoaderPutsArePublication(job.frames, job.progs[n][sys.clients[n].pc].key);
  }

  lemma PublishMoveOk<L>(job: Job<L>, sys: System<L>, n: nat, sys': System<L>)
    requires Sound(job) && SystemOk(job, sys) && n < NUM_NODES && sys.kv.nodes[n].app.Running?
    requires sys.clients[n].pc < |job.progs[n]| && job.progs[n][sys.clients[n].pc].Publish?
    requires var k := job.progs[n][sys.clients[n].pc].key;
             k in job.frames &&
             var st := P.Publish(n, k, PutsOf(job.frames, k));
             P.Enabled(PlanOf(job.frames), sys.kv, st) &&
             sys' == Done(sys, n, sys.clients[n].value).(kv := P.Apply(PlanOf(job.frames), sys.kv, st))
    ensures SystemOk(job, sys')
  {
    hide FramesFit, FrameReachable, PlanOf, PutsOf, SoundAll, OwnFirst;
    var client, prog := sys.clients[n], job.progs[n];
    var k := prog[client.pc].key;
    var st := P.Publish(n, k, PutsOf(job.frames, k));
    FrameRunExtends(job.frames, sys.kv, st);
    forall m | 0 <= m < NUM_NODES ensures m < |sys'.kv.nodes| && ClientOk(job, sys', m) {
      assert ClientOk(job, sys, m);
      if m == n {
        ValueNext(job, n, client.pc);
        PublishIsPlanned(job, sys, n);
        assert PutsOf(job.frames, k)[|PutsOf(job.frames, k)| - 1].0 == k;
        forall q | 0 <= q < client.pc + 1 && prog[q].Publish? ensures Out(sys'.kv.nodes[n], n, prog[q].key) {
          if q < client.pc {
            PublishedIsPlanned(job, n, q);
            StaysOut(PlanOf(job.frames), sys.kv, st, n, prog[q].key);
          }
        }
      }
    }
  }

  lemma ActMoveOk<L(!new)>(job: Job<L>, sys: System<L>, n: nat, sys': System<L>)
    requires Sound(job) && SystemOk(job, sys) && ActMove(job, sys, n, sys')
    ensures SystemOk(job, sys')
  {
    hide FramesFit, FrameReachable, PlanOf, PutsOf, P.Apply, P.Enabled, SoundAll, OwnFirst, HasRead, ClientOk;
    var client, a := sys.clients[n], job.progs[n][sys.clients[n].pc];
    ClientValue(job, sys, n);
    SoundHere(job, n, client.pc);
    match a
    case Read(_, k, local, take) =>
      var types, rows :| HasRead(sys.kv.nodes[n].held, k, types, rows, n, local) &&
                         sys' == Done(sys, n, take(client.value, RowsFor(k, rows, n, local)));
      ReadGivesContent(job.frames, sys.kv, n, k, types, rows, local);
      LocalMoveOk(job, sys, n, take(client.value, RowsFor(k, rows, n, local)));
    case Publish(_, k, types, make, count) =>
      PublishIsPlanned(job, sys, n);
      PublishMoveOk(job, sys, n, sys');
    case Work(_, change) =>
      LocalMoveOk(job, sys, n, change(client.value));
  }

  lemma ClientValue<L>(job: Job<L>, sys: System<L>, n: nat)
    requires Sound(job) && SystemOk(job, sys) && n < NUM_NODES
    ensures sys.clients[n].pc <= |job.progs[n]| && sys.clients[n].value == ValueAt(job, n, sys.clients[n].pc)
    ensures !sys.kv.nodes[n].app.Aborted?
  {
    hide FramesFit, FrameReachable;
    assert ClientOk(job, sys, n);
  }

  lemma BeginsOk<L>(job: Job<L>, sys: System<L>)
    requires Sound(job) && Begins(job, sys)
    ensures SystemOk(job, sys)
  {
    hide FramesFit, SoundAll, OwnFirst;
    assert IsFrameRun(job.frames, [sys.kv]) && [sys.kv][0] == sys.kv;
    forall n | 0 <= n < NUM_NODES ensures ClientOk(job, sys, n) {
      assert job.progs[n][..0] == [];
    }
  }

  lemma {:induction false} RunOk<L(!new)>(job: Job<L>, run: seq<System<L>>)
    requires Sound(job) && IsSystemRun(job, run)
    ensures SystemOk(job, run[|run| - 1])
  {
    hide Sound, SystemOk, KvMove, ActMove;
    if |run| == 1 {
      BeginsOk(job, run[0]);
    } else {
      var prefix := run[..|run| - 1];
      forall i | 0 <= i < |prefix| - 1 ensures Moves(job, prefix[i], prefix[i + 1]) {
        assert Moves(job, run[i], run[i + 1]);
      }
      RunOk(job, prefix);
      var sys, sys' := run[|run| - 2], run[|run| - 1];
      assert Moves(job, sys, sys');
      if st :| KvMove(job, sys, st, sys') {
        KvMoveOk(job, sys, st, sys');
      } else {
        var n :| ActMove(job, sys, n, sys');
        ActMoveOk(job, sys, n, sys');
      }
    }
  }

  // ---------- the theorems ----------

  ghost predicate SystemReachable<L(!new)>(job: Job<L>, sys: System<L>)
    requires FramesFit(job.frames)
  {
    exists run :: IsSystemRun(job, run) && run[|run| - 1] == sys
  }

  lemma ReachableOk<L(!new)>(job: Job<L>, sys: System<L>)
    requires Sound(job) && SystemReachable(job, sys)
    ensures SystemOk(job, sys)
    ensures |sys.kv.nodes| == |sys.clients| == |job.progs| == |job.inits| == NUM_NODES
  {
    hide FramesFit, FrameReachable, SoundAll, OwnFirst;
    var run :| IsSystemRun(job, run) && run[|run| - 1] == sys;
    RunOk(job, run);
  }

  /**
   In every interleaving, what a node has computed before an action is what it
   computes on its own from the published frames.
   */
  lemma ScheduleDoesNotMatter<L(!new)>(job: Job<L>, sys: System<L>, n: nat)
    requires Sound(job) && SystemReachable(job, sys) && n < NUM_NODES
    ensures n < |sys.clients| && n < |job.progs| == |job.inits| && sys.clients[n].pc <= |job.progs[n]|
    ensures sys.clients[n].value == ValueAt(job, n, sys.clients[n].pc)
  {
    hide Sound;
    ReachableOk(job, sys);
    ClientValue(job, sys, n);
  }

  /** No node's lookup of a key of its own ever fails. */
  lemma NobodyAborts<L(!new)>(job: Job<L>, sys: System<L>, n: nat)
    requires Sound(job) && SystemReachable(job, sys) && n < NUM_NODES
    ensures n < |sys.kv.nodes| && !sys.kv.nodes[n].app.Aborted?
  {
    hide Sound;
    ReachableOk(job, sys);
    ClientValue(job, sys, n);
  }

  // ---------- nobody gets stuck ----------

  /** Times do not fall along a node's actions, and a frame is read at a later time than some node publishes it. */
  ghost predicate Timed<L>(job: Job<L>)
    requires |job.progs| == NUM_NODES
  {
    && (forall n | 0 <= n < NUM_NODES :: TimesRise(job.progs[n]))
    && forall n, i | 0 <= n < NUM_NODES && 0 <= i < |job.progs[n]| && job.progs[n][i].Read? ::
         PublishedBefore(job, job.progs[n][i].key, job.progs[n][i].time)
  }

  predicate TimesRise<L>(acts: seq<Action<L>>) {
    forall i, j | 0 <= i < j < |acts| :: acts[i].time <= acts[j].time
  }

  predicate PublishedBefore<L>(job: Job<L>, k: Key, time: nat) {
    exists m | 0 <= m < |job.progs| :: PublishesBefore(job.progs[m], k, time)
  }

  predicate PublishesBefore<L>(acts: seq<Action<L>>, k: Key, time: nat) {
    exists q | 0 <= q < |acts| :: acts[q].Publish? && acts[q].key == k && acts[q].time < time
  }

  predicate Finished<L>(job: Job<L>, sys: System<L>) {
    forall n | 0 <= n < |sys.clients| && n < |job.progs| :: sys.clients[n].pc >= |job.progs[n]|
  }

  /** A move other than a kill. */
  ghost predicate Advances<L(!new)>(job: Job<L>, sys: System<L>, sys': System<L>)
    requires FramesFit(job.frames)
  {
    (exists st: P.Step :: !st.Stop? && KvMove(job, sys, st, sys')) || (exists n :: ActMove(job, sys, n, sys'))
  }

  /** The unfinished node whose next action is earliest. */
  lemma {:induction false} Earliest<L>(job: Job<L>, sys: System<L>, m: nat) returns (n: nat)
    requires |sys.clients| == |job.progs| >= m
    requires exists i | 0 <= i < m :: sys.clients[i].pc < |job.progs[i]|
    ensures n < m && sys.clients[n].pc < |job.progs[n]|
    ensures forall i | 0 <= i < m && sys.clients[i].pc < |job.progs[i]| ::
              job.progs[n][sys.clients[n].pc].time <= job.progs[i][sys.clients[i].pc].time
  {
    if exists i | 0 <= i < m - 1 :: sys.clients[i].pc < |job.progs[i]| {
      n := Earliest(job, sys, m - 1);
      if sys.clients[m - 1].pc < |job.progs[m - 1]| &&
         job.progs[m - 1][sys.clients[m - 1].pc].time < job.progs[n][sys.clients[n].pc].time {
        n := m - 1;
      }
    } else {
      n := m - 1;
    }
  }

  /** Nothing is left to do for the servicers, the repliers, waiting and publishing applications. */
  ghost predicate Idle<L>(job: Job<L>, sys: System<L>)
    requires FramesFit(job.frames)
  {
    && KvProgress.Quiescent(PlanOf(job.frames), sys.kv)
    && (forall n | 0 <= n < |sys.kv.nodes| :: !sys.kv.nodes[n].app.Publishing?)
  }

  /** When all is idle, the frame the earliest node reads has been published. */
  lemma EarliestFinds<L>(job: Job<L>, sys: System<L>, n: nat)
    requires Sound(job) && SystemOk(job, sys) && Timed(job) && Idle(job, sys) && n < NUM_NODES
    requires sys.clients[n].pc < |job.progs[n]| && job.progs[n][sys.clients[n].pc].Read?
    requires forall i | 0 <= i < NUM_NODES && sys.clients[i].pc < |job.progs[i]| ::
               job.progs[n][sys.clients[n].pc].time <= job.progs[i][sys.clients[i].pc].time
    ensures exists m | 0 <= m < NUM_NODES :: job.progs[n][sys.clients[n].pc].key in sys.kv.nodes[m].held
  {
    hide FramesFit, FrameReachable, PlanOf, SoundAll, OwnFirst, KvProgress.Quiescent;
    var a := job.progs[n][sys.clients[n].pc];
    assert PublishedBefore(job, a.key, a.time);
    var m :| 0 <= m < |job.progs| && PublishesBefore(job.progs[m], a.key, a.time);
    var q :| 0 <= q < |job.progs[m]| && job.progs[m][q].Publish? && job.progs[m][q].key == a.key &&
             job.progs[m][q].time < a.time;
    assert ClientOk(job, sys, m) && TimesRise(job.progs[m]);
    PastPublisher(job.progs[m], sys.clients[m].pc, q, a.time);
    assert Out(sys.kv.nodes[m], m, a.key);
  }

  lemma PastPublisher<L>(acts: seq<Action<L>>, pc: nat, q: nat, time: nat)
    requires TimesRise(acts) && q < |acts| && acts[q].time < time
    requires pc < |acts| ==> time <= acts[pc].time
    ensures q < pc
  {
  }

  /** A key at hand somewhere was put, and so are the chunks it stands for. */
  lemma HeldWasPut<L>(job: Job<L>, sys: System<L>, m: nat, k: Key)
    requires Sound(job) && SystemOk(job, sys) && m < NUM_NODES && k in sys.kv.nodes[m].held && k in PlanOf(job.frames)
    ensures k in KvCausality.Issued(sys.kv)
    ensures forall ck <- PlanOf(job.frames)[k] :: ck in KvCausality.Issued(sys.kv)
  {
    hide FramesFit, FrameReachable, PlanOf, SoundAll, OwnFirst, ClientOk, P.Reachable, P.WellFormed;
    FrameReachableContent(job.frames, sys.kv);
    PlanIsWellFormed(job.frames);
    KvSafety.ReturnedValueWasPut(PlanOf(job.frames), sys.kv, m, k);
    KvCausality.StateIsCausal(PlanOf(job.frames), sys.kv);
    assert (k, sys.kv.nodes[m].held[k]) in sys.kv.puts;
  }

  /** When all is idle, what the earliest node waits for has been put. */
  lemma AwaitedWasPut<L>(job: Job<L>, sys: System<L>, n: nat) returns (v: Blob)
    requires Sound(job) && SystemOk(job, sys) && Timed(job) && Idle(job, sys) && n < NUM_NODES
    requires sys.clients[n].pc < |job.progs[n]| && sys.kv.nodes[n].app.Waiting?
    requires forall i | 0 <= i < NUM_NODES && sys.clients[i].pc < |job.progs[i]| ::
               job.progs[n][sys.clients[n].pc].time <= job.progs[i][sys.clients[i].pc].time
    ensures (sys.kv.nodes[n].app.want, v) in sys.kv.puts
  {
    hide FramesFit, FrameReachable, PlanOf, SoundAll, OwnFirst, Timed, KvProgress.Quiescent;
    assert ClientOk(job, sys, n);
    var k, want := job.progs[n][sys.clients[n].pc].key, sys.kv.nodes[n].app.want;
    SoundHere(job, n, sys.clients[n].pc);
    PlanKeys(job.frames);
    EarliestFinds(job, sys, n);
    var m :| 0 <= m < NUM_NODES && k in sys.kv.nodes[m].held;
    HeldWasPut(job, sys, m, k);
    assert want in KvCausality.Issued(sys.kv);
    var p :| p in sys.kv.puts && p.0 == want;
    v := p.1;
  }

  /** When all is idle, the earliest node does not wait. */
  lemma EarliestRuns<L>(job: Job<L>, sys: System<L>, n: nat)
    requires Sound(job) && SystemOk(job, sys) && Timed(job) && Idle(job, sys) && n < NUM_NODES
    requires forall i | 0 <= i < |sys.kv.nodes| :: sys.kv.nodes[i].serving
    requires sys.clients[n].pc < |job.progs[n]|
    requires forall i | 0 <= i < NUM_NODES && sys.clients[i].pc < |job.progs[i]| ::
               job.progs[n][sys.clients[n].pc].time <= job.progs[i][sys.clients[i].pc].time
    ensures sys.kv.nodes[n].app.Running?
  {
    hide FramesFit, FrameReachable, PlanOf, SoundAll, OwnFirst, P.Reachable, P.WellFormed, Timed, KvProgress.Quiescent;
    ClientValue(job, sys, n);
    if sys.kv.nodes[n].app.Waiting? {
      FrameReachableContent(job.frames, sys.kv);
      PlanIsWellFormed(job.frames);
      KvProgress.OnlyAbsentKeysAreAwaited(PlanOf(job.frames), sys.kv, n);
      var v := AwaitedWasPut(job, sys, n);
    }
  }

  /** A running node can do its action, or ask for what it lacks. */
  lemma RunningMoves<L(!new)>(job: Job<L>, sys: System<L>, n: nat)
    requires Sound(job) && SystemOk(job, sys) && n < NUM_NODES
    requires sys.kv.nodes[n].app.Running? && sys.clients[n].pc < |job.progs[n]|
    ensures exists sys' :: Advances(job, sys, sys')
  {
    hide FramesFit, FrameReachable, PlanOf, PutsOf, SoundAll, OwnFirst, HasRead, ClientOk, NeedsChunk;
    var node, client, a := sys.kv.nodes[n], sys.clients[n], job.progs[n][sys.clients[n].pc];
    match a
    case Read(_, k, local, take) =>
      SoundHere(job, n, client.pc);
      var f := job.frames[k];
      if HasRead(node.held, k, f.types, f.rows, n, local) {
        var sys' := Done(sys, n, take(client.value, RowsFor(k, f.rows, n, local)));
        assert ActMove(job, sys, n, sys');
        assert Advances(job, sys, sys');
      } else {
        var ck := Lacking(job, sys, n, k, local);
        AskMoves(job, sys, n, ck);
      }
    case Publish(_, k, types, make, count) =>
      PublishIsPlanned(job, sys, n);
      var st := P.Publish(n, k, PutsOf(job.frames, k));
      assert P.Enabled(PlanOf(job.frames), sys.kv, st);
      var sys' := Done(sys, n, client.value).(kv := P.Apply(PlanOf(job.frames), sys.kv, st));
      assert ActMove(job, sys, n, sys');
      assert Advances(job, sys, sys');
    case Work(_, change) =>
      var sys' := Done(sys, n, change(client.value));
      assert ActMove(job, sys, n, sys');
      assert Advances(job, sys, sys');
  }

  lemma AskMoves<L(!new)>(job: Job<L>, sys: System<L>, n: nat, ck: Key)
    requires Sound(job) && |sys.kv.nodes| == NUM_NODES && n < NUM_NODES
    requires sys.kv.nodes[n].app.Running? && Wants(job, sys, n, ck) && ck.node < NUM_NODES
    ensures exists sys' :: Advances(job, sys, sys')
  {
    hide FramesFit, PlanOf, Wants;
    var st := P.Ask(n, ck);
    assert P.Enabled(PlanOf(job.frames), sys.kv, st);
    var sys' := Asks(sys, n, ck).(kv := P.Apply(PlanOf(job.frames), sys.kv, st));
    assert KvMove(job, sys, st, sys');
    assert Advances(job, sys, sys');
  }

  /** What a node that cannot read yet may ask for. */
  lemma Lacking<L>(job: Job<L>, sys: System<L>, n: nat, k: Key, local: bool) returns (ck: Key)
    requires Sound(job) && SystemOk(job, sys) && n < NUM_NODES && sys.clients[n].pc < |job.progs[n]|
    requires var a := job.progs[n][sys.clients[n].pc]; a.Read? && a.key == k && a.local == local
    requires k in job.frames && sys.kv.nodes[n].app.Running?
    requires !HasRead(sys.kv.nodes[n].held, k, job.frames[k].types, job.frames[k].rows, n, local)
    ensures Wants(job, sys, n, ck) && ck.node < NUM_NODES
  {
    hide FrameReachable, PlanOf, SoundAll, OwnFirst, ClientOk, FrameFits, EncSchema, ChunkBlob, NumChunks;
    var f, held := job.frames[k], sys.kv.nodes[n].held;
    AskedIsHeld(job, sys, n);
    if k !in held {
      ck := k;
    } else {
      SchemaFetched(job.frames, sys.kv, n, k);
      var j, c :| 0 <= j < |f.types| && 0 <= c < NumChunks(|f.rows|) && (local ==> HomeOf(k, c) == n) &&
                  !HoldsChunk(held, k, f.types, f.rows, j, c);
      SizesFit(f.types, f.rows);
      ck := ChunkKey(k, j, c);
      FetchedIsContent(job.frames, sys.kv, n, k, j, c);
    }
  }

  lemma AskedIsHeld<L>(job: Job<L>, sys: System<L>, n: nat)
    requires Sound(job) && SystemOk(job, sys) && n < NUM_NODES && sys.kv.nodes[n].app.Running?
    ensures forall k <- sys.clients[n].asked :: k in sys.kv.nodes[n].held
  {
    hide FramesFit, FrameReachable, PlanOf, SoundAll, OwnFirst, Out;
    assert ClientOk(job, sys, n);
  }

  /** As long as no servicer is killed, some node can move until all have finished: no interleaving gets stuck. */
  lemma NobodyIsStuck<L(!new)>(job: Job<L>, sys: System<L>)
    requires Sound(job) && Timed(job) && SystemReachable(job, sys)
    requires forall i | 0 <= i < |sys.kv.nodes| :: sys.kv.nodes[i].serving
    requires !Finished(job, sys)
    ensures exists sys' :: Advances(job, sys, sys')
  {
    hide Sound, SystemOk, Timed, PlanOf, SystemReachable, Advances, KvProgress.Quiescent;
    ReachableOk(job, sys);
    if n :| 0 <= n < NUM_NODES && sys.kv.nodes[n].app.Publishing? {
      PutNextMoves(job, sys, n);
    } else if !KvProgress.Quiescent(PlanOf(job.frames), sys.kv) {
      ServiceMoves(job, sys);
    } else {
      var n := Earliest(job, sys, NUM_NODES);
      EarliestRuns(job, sys, n);
      RunningMoves(job, sys, n);
    }
  }

  lemma ServiceMoves<L(!new)>(job: Job<L>, sys: System<L>)
    requires FramesFit(job.frames) && !KvProgress.Quiescent(PlanOf(job.frames), sys.kv)
    ensures exists sys' :: Advances(job, sys, sys')
  {
    hide FramesFit, PlanOf, P.Enabled, P.Apply;
    var st :| P.Enabled(PlanOf(job.frames), sys.kv, st) && (st.Serve? || st.Answer? || st.Take?);
    var sys' := sys.(kv := P.Apply(PlanOf(job.frames), sys.kv, st));
    assert KvMove(job, sys, st, sys');
    assert Advances(job, sys, sys');
  }

  lemma PutNextMoves<L(!new)>(job: Job<L>, sys: System<L>, n: nat)
    requires Sound(job) && SystemOk(job, sys) && n < NUM_NODES && sys.kv.nodes[n].app.Publishing?
    ensures exists sys' :: Advances(job, sys, sys')
  {
    hide FramesFit, PlanOf, ClientOk, SoundAll, OwnFirst, P.WellFormed, P.Reachable, FrameReachable;
    FrameReachableContent(job.frames, sys.kv);
    PlanIsWellFormed(job.frames);
    KvCausality.StateIsCausal(PlanOf(job.frames), sys.kv);
    assert KvSafety.GoodNode(sys.kv, n);
    var st := P.PutNext(n);
    assert P.Enabled(PlanOf(job.frames), sys.kv, st);
    var sys' := sys.(kv := P.Apply(PlanOf(job.frames), sys.kv, st));
    assert KvMove(job, sys, st, sys');
    assert Advances(job, sys, sys');
  }

  // ---------- programs in pieces ----------

  lemma {:induction false} DoAllConcat<L>(frames: map<Key, Frame>, n: nat, l: L, a: seq<Action<L>>, b: seq<Action<L>>)
    ensures DoAll(frames, n, l, a + b) == DoAll(frames, n, DoAll(frames, n, l, a), b)
  {
    if b == [] {
      assert a + b == a;
    } else {
      assert (a + b)[..|a + b| - 1] == a + b[..|b| - 1];
      DoAllConcat(frames, n, l, a, b[..|b| - 1]);
    }
  }

  lemma DoOne<L>(frames: map<Key, Frame>, n: nat, l: L, a: Action<L>)
    ensures DoAll(frames, n, l, [a]) == Do(frames, n, l, a)
    ensures SoundAll(frames, n, l, [a]) <==> SoundAt(frames, l, a)
  {
    assert [a][..0] == [];
  }

  lemma SoundConcat<L>(frames: map<Key, Frame>, n: nat, l: L, a: seq<Action<L>>, b: seq<Action<L>>)
    requires SoundAll(frames, n, l, a) && SoundAll(frames, n, DoAll(frames, n, l, a), b)
    ensures SoundAll(frames, n, l, a + b)
  {
    hide SoundAt, DoAll;
    var c := a + b;
    forall i | 0 <= i < |c| ensures SoundAt(frames, DoAll(frames, n, l, c[..i]), c[i]) {
      if i < |a| {
        assert c[..i] == a[..i] && c[i] == a[i];
      } else {
        var h := i - |a|;
        assert c[..i] == a + b[..h] && c[i] == b[h];
        DoAllConcat(frames, n, l, a, b[..h]);
      }
    }
  }

  /** The first piece leads from `l` to `l'`, soundly; then so does the whole if the second does from there. */
  lemma InSequence<L>(frames: map<Key, Frame>, n: nat, l: L, a: seq<Action<L>>, b: seq<Action<L>>)
    requires SoundAll(frames, n, l, a) && SoundAll(frames, n, DoAll(frames, n, l, a), b)
    ensures SoundAll(frames, n, l, a + b)
    ensures DoAll(frames, n, l, a + b) == DoAll(frames, n, DoAll(frames, n, l, a), b)
  {
    SoundConcat(frames, n, l, a, b);
    DoAllConcat(frames, n, l, a, b);
  }

  lemma PublishesMore<L>(a: seq<Action<L>>, b: seq<Action<L>>, k: Key)
    ensures Publishes(a + b, k) <==> Publishes(a, k) || Publishes(b, k)
  {
    if i :| 0 <= i < |a| && a[i].Publish? && a[i].key == k {
      assert (a + b)[i] == a[i];
    }
    if i :| 0 <= i < |b| && b[i].Publish? && b[i].key == k {
      assert (a + b)[|a| + i] == b[i];
    }
  }

  /** Pieces whose own reads were published in the pieces before keep the order. */
  lemma OwnFirstMore<L>(a: seq<Action<L>>, b: seq<Action<L>>, n: nat)
    requires OwnFirst(a, n)
    requires forall i | 0 <= i < |b| && b[i].Read? && b[i].key.node == n :: Publishes(a, b[i].key)
    ensures OwnFirst(a + b, n)
  {
    hide Publishes;
    var c := a + b;
    forall i | 0 <= i < |c| && c[i].Read? && c[i].key.node == n ensures Publishes(c[..i], c[i].key) {
      if i < |a| {
        assert c[..i] == a[..i];
      } else {
        assert c[..i] == a + b[..i - |a|];
        PublishesMore(a, b[..i - |a|], c[i].key);
      }
    }
  }

  /** All times lie between `lo` and `hi`, and they rise. */
  predicate TimesWithin<L>(acts: seq<Action<L>>, lo: nat, hi: nat) {
    lo <= hi && TimesRise(acts) && forall i | 0 <= i < |acts| :: lo <= acts[i].time <= hi
  }

  lemma TimesMore<L>(a: seq<Action<L>>, b: seq<Action<L>>, lo: nat, mid: nat, mid': nat, hi: nat)
    requires TimesWithin(a, lo, mid) && TimesWithin(b, mid', hi) && mid <= mid'
    ensures TimesWithin(a + b, lo, hi)
  {
    var c := a + b;
    forall i, j | 0 <= i < j < |c| ensures c[i].time <= c[j].time {
    }
  }

  lemma BeforeMore<L>(a: seq<Action<L>>, b: seq<Action<L>>, k: Key, time: nat)
    requires PublishesBefore(a, k, time) || PublishesBefore(b, k, time)
    ensures PublishesBefore(a + b, k, time)
  {
    if q :| 0 <= q < |a| && a[q].Publish? && a[q].key == k && a[q].time < time {
      assert (a + b)[q] == a[q];
    } else {
      var q :| 0 <= q < |b| && b[q].Publish? && b[q].key == k && b[q].time < time;
      assert (a + b)[|a| + q] == b[q];
    }
  }

  lemma PublishedWithin<L>(acts: seq<Action<L>>, k: Key, lo: nat, hi: nat, time: nat)
    requires Publishes(acts, k) && TimesWithin(acts, lo, hi) && hi < time
    ensures PublishesBefore(acts, k, time)
  {
  }

  /** Every read of these actions is of a frame that some node publishes earlier. */
  ghost predicate Served<L>(job: Job<L>, acts: seq<Action<L>>) {
    forall i | 0 <= i < |acts| && acts[i].Read? :: PublishedBefore(job, acts[i].key, acts[i].time)
  }

  lemma ServedMore<L>(job: Job<L>, a: seq<Action<L>>, b: seq<Action<L>>)
    requires Served(job, a) && Served(job, b)
    ensures Served(job, a + b)
  {
    hide PublishedBefore;
  }

  lemma ServedOne<L>(job: Job<L>, a: Action<L>, m: nat)
    requires a.Read? ==> m < |job.progs| && PublishesBefore(job.progs[m], a.key, a.time)
    ensures Served(job, [a])
  {
  }
}
