/**
 The key-value protocol as a step machine. One step is one map operation or
 one queue push or pop, so any interleaving of the application threads, the
 servicer threads and the replier threads is a sequence of steps.
 */
module KvProtocol {
  import opened Params
  import opened Messages

  /** What the application thread of a node is doing. */
  datatype App =
    | Running
    | Publishing(todo: seq<(Key, Blob)>)  // storing the chunks of a frame, then its schema
    | Waiting(want: Key)                  // blocked until its reply is in the slot
    | Aborted                             // a lookup of an absent key failed its assertion

  /**
   `repliers` holds the requests whose replier thread has not answered yet,
   `slot` is the servicer's current value and `held` the values the
   application has been handed by gets, and the schemas it has published.
   */
  datatype Node = Node(
    entries: map<Key, Blob>,
    inbox: seq<Message>,
    repliers: seq<Message>,
    slot: Option<Blob>,
    serving: bool,
    app: App,
    held: map<Key, Blob>)

  /** `puts` records every pair ever handed to a put. */
  datatype State = State(nodes: seq<Node>, puts: set<(Key, Blob)>)

  /** The frames of a run: each schema key with the keys of its chunks. */
  type Plan = map<Key, seq<Key>>

  predicate WellFormed(plan: Plan) {
    && (forall sk <- plan :: sk.node < NUM_NODES)
    && (forall sk <- plan, ck | ck in plan[sk] :: ck.node < NUM_NODES && ck !in plan)
  }

  datatype Step =
    | Publish(n: nat, schema: Key, todo: seq<(Key, Blob)>)
    | PutNext(n: nat)
    | Ask(n: nat, key: Key)
    | Serve(n: nat)
    | Answer(n: nat, i: nat)
    | Take(n: nat)
    | Stop(n: nat, victim: nat)

  // ---------- the operations of one node ----------

  function Deliver(nodes: seq<Node>, m: Message): seq<Node>
    requires m.target < |nodes|
  {
    nodes[m.target := nodes[m.target].(inbox := nodes[m.target].inbox + [m])]
  }

  /** A put stores the pair locally or sends it to the node the key names. */
  function PutAt(nodes: seq<Node>, n: nat, k: Key, v: Blob): seq<Node>
    requires n < |nodes| && k.node < |nodes|
  {
    if k.node == n then nodes[n := nodes[n].(entries := nodes[n].entries[k := v])]
    else Deliver(nodes, Put(n, k.node, 0, k, v))
  }

  /** A blocking get: a local lookup, or a request followed by a wait. */
  function AskAt(nodes: seq<Node>, n: nat, k: Key): seq<Node>
    requires n < |nodes| && k.node < |nodes|
  {
    if k.node == n then
      if k in nodes[n].entries
      then nodes[n := nodes[n].(held := nodes[n].held[k := nodes[n].entries[k]])]
      else nodes[n := nodes[n].(app := Aborted)]
    else Deliver(nodes[n := nodes[n].(app := Waiting(k))], Get(n, k.node, 0, k))
  }

  /** One turn of the servicer loop: pop a message and handle it. */
  function ServeNode(node: Node): Node
    requires node.inbox != []
  {
    var popped := node.(inbox := node.inbox[1..]);
    match node.inbox[0]
    case Put(_, _, _, k, v) => popped.(entries := node.entries[k := v])
    case Get(_, _, _, _) => popped.(repliers := node.repliers + [node.inbox[0]])
    case Reply(_, _, _, _, v) => popped.(slot := Some(v))
    case Kill(_, _, _) => popped.(serving := false)
    case _ => popped
  }

  /** A replier whose key has arrived sends the value back and ends. */
  function AnswerAt(nodes: seq<Node>, n: nat, i: nat): seq<Node>
    requires n < |nodes| && i < |nodes[n].repliers|
    requires var g := nodes[n].repliers[i]; g.Get? && g.sender < |nodes| && g.key in nodes[n].entries
  {
    var g := nodes[n].repliers[i];
    var rest := nodes[n].repliers[..i] + nodes[n].repliers[i + 1..];
    Deliver(nodes[n := nodes[n].(repliers := rest)], Reply(n, g.sender, 0, g.key, nodes[n].entries[g.key]))
  }

  /** The waiting application empties the slot. */
  function TakeNode(node: Node): Node
    requires node.app.Waiting? && node.slot.Some?
  {
    node.(slot := None, app := Running, held := node.held[node.app.want := node.slot.value])
  }

  /** The application hands over its next pair; a loader keeps the schema for its own frame. */
  function Issue(plan: Plan, node: Node): Node
    requires node.app.Publishing? && node.app.todo != []
  {
    var (k, v) := node.app.todo[0];
    node.(app := Publishing(node.app.todo[1..]), held := if k in plan then node.held[k := v] else node.held)
  }

  // ---------- the machine ----------

  predicate Init(s: State) {
    && |s.nodes| == NUM_NODES
    && s.puts == {}
    && forall n | 0 <= n < NUM_NODES :: s.nodes[n] == Node(map[], [], [], None, true, Running, map[])
  }

  /** A frame is published chunk by chunk, with its schema last. */
  predicate PublicationOf(plan: Plan, sk: Key, todo: seq<(Key, Blob)>) {
    && sk in plan
    && |todo| == |plan[sk]| + 1
    && (forall i | 0 <= i < |plan[sk]| :: todo[i].0 == plan[sk][i])
    && todo[|plan[sk]|].0 == sk
  }

  predicate Enabled(plan: Plan, s: State, st: Step) {
    && st.n < |s.nodes|
    && var node := s.nodes[st.n];
       match st
       case Publish(_, sk, todo) => node.app.Running? && PublicationOf(plan, sk, todo)
       case PutNext(_) => node.app.Publishing? && (node.app.todo != [] ==> node.app.todo[0].0.node < |s.nodes|)
       case Ask(_, k) => node.app.Running? && k.node < |s.nodes|
       case Serve(_) => node.serving && node.inbox != []
       case Answer(_, i) =>
         i < |node.repliers| && var g := node.repliers[i]; g.Get? && g.sender < |s.nodes| && g.key in node.entries
       case Take(_) => node.app.Waiting? && node.slot.Some?
       case Stop(_, victim) => node.app.Running? && victim < |s.nodes|
  }

  function Apply(plan: Plan, s: State, st: Step): State
    requires Enabled(plan, s, st)
  {
    var node := s.nodes[st.n];
    match st
    case Publish(n, _, todo) => s.(nodes := s.nodes[n := node.(app := Publishing(todo))])
    case PutNext(n) =>
      if node.app.todo == [] then s.(nodes := s.nodes[n := node.(app := Running)])
      else
        var (k, v) := node.app.todo[0];
        State(PutAt(s.nodes[n := Issue(plan, node)], n, k, v), s.puts + {(k, v)})
    case Ask(n, k) => s.(nodes := AskAt(s.nodes, n, k))
    case Serve(n) => s.(nodes := s.nodes[n := ServeNode(node)])
    case Answer(n, i) => s.(nodes := AnswerAt(s.nodes, n, i))
    case Take(n) => s.(nodes := s.nodes[n := TakeNode(node)])
    case Stop(n, victim) => s.(nodes := Deliver(s.nodes, Kill(n, victim, 0)))
  }

  ghost predicate Next(plan: Plan, s: State, s': State) {
    exists st :: Enabled(plan, s, st) && s' == Apply(plan, s, st)
  }

  /** A run is any sequence of enabled steps from the initial state. */
  ghost predicate IsRun(plan: Plan, run: seq<State>) {
    && |run| > 0
    && Init(run[0])
    && forall i | 0 <= i < |run| - 1 :: Next(plan, run[i], run[i + 1])
  }

  ghost predicate Reachable(plan: Plan, s: State) {
    exists run :: IsRun(plan, run) && run[|run| - 1] == s
  }

  // ---------- weights ----------

  /**
   The two ways the machine is measured: `Tokens(n)` counts the signs of node
   n's outstanding request, `Work` weighs the service still to be done.
   */
  datatype Meter = Tokens(of: nat) | Work

  /** The weight of message `m` when it sits in the inbox of node `j`. */
  function InboxWeight(w: Meter, j: nat, m: Message): nat {
    match w
    case Tokens(n) => if (m.Get? && m.sender == n) || (m.Reply? && j == n) then 1 else 0
    case Work => if m.Get? then 4 else if m.Reply? then 2 else 1
  }

  function ReplierWeight(w: Meter, m: Message): nat {
    match w
    case Tokens(n) => if m.sender == n then 1 else 0
    case Work => 3
  }

  function SlotWeight(w: Meter, j: nat, slot: Option<Blob>): nat {
    if slot.None? then 0 else if w == Work || w.of == j then 1 else 0
  }

  function InboxLoad(w: Meter, j: nat, q: seq<Message>): nat {
    if q == [] then 0 else InboxWeight(w, j, q[0]) + InboxLoad(w, j, q[1..])
  }

  function ReplierLoad(w: Meter, q: seq<Message>): nat {
    if q == [] then 0 else ReplierWeight(w, q[0]) + ReplierLoad(w, q[1..])
  }

  function NodeLoad(w: Meter, j: nat, node: Node): nat {
    InboxLoad(w, j, node.inbox) + ReplierLoad(w, node.repliers) + SlotWeight(w, j, node.slot)
  }

  /** The load of the nodes from `j` on. */
  function Load(w: Meter, nodes: seq<Node>, j: nat := 0): nat
    requires j <= |nodes|
    decreases |nodes| - j
  {
    if j == |nodes| then 0 else NodeLoad(w, j, nodes[j]) + Load(w, nodes, j + 1)
  }
}
