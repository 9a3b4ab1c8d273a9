/**
 The collaborator search as a job for the step machine: each node's actions in
 the order of the program, and the frames they exchange. The nodes reach the
 reference sets in every interleaving.
 */
module LinusClients {
  import opened Params
  import opened Messages
  import opened Text
  import opened Wire
  import opened Layout
  import opened FrameProtocol
  import opened FrameReads
  import opened Clients
  import opened ClientRuns
  import opened LinusSets
  import opened LinusSpec
  import opened LinusMerge

  /** What a node has computed: its two sets, the users the stage started from, and what the stage has found. */
  datatype Local = Local(pSet: set<int>, uSet: set<int>, delta: set<int>, found: set<int>)

  type Act = Action<Local>

  /** The input of a run. */
  datatype Input = Input(d: Data, types: seq<char>, linus: int, degrees: nat)

  ghost predicate InputOk(x: Input) {
    && IsPlain(x.d.key.name) && x.d.key.node == 0
    && FrameFits(x.types, x.d.rows) && ReadsInts(x.types)
    && x.d.projects <= INT_LIMIT && x.d.users <= INT_LIMIT && -INT_LIMIT <= x.linus < INT_LIMIT
  }

  // ---------- the actions ----------

  function SetRows(s: set<int>, cap: nat): seq<Row> {
    Listed(seq(cap, i requires 0 <= i < cap => i in s))
  }

  function TakeDelta(users: nat): (Local, seq<Row>) -> Local {
    (l: Local, rows: seq<Row>) => l.(delta := Below(Numbers(rows), users))
  }

  function TakeFound(cap: nat): (Local, seq<Row>) -> Local {
    (l: Local, rows: seq<Row>) => l.(found := l.found + Below(Numbers(rows), cap))
  }

  function TagProjects(projects: nat): (Local, seq<Row>) -> Local {
    (l: Local, rows: seq<Row>) =>
      var found := Touched(Shown(rows), l.delta, projects) - l.pSet;
      l.(pSet := l.pSet + found, found := found)
  }

  function TagUsers(users: nat): (Local, seq<Row>) -> Local {
    (l: Local, rows: seq<Row>) =>
      var found := Authors(Shown(rows), l.found, users) - l.uSet;
      l.(uSet := l.uSet + found, found := found)
  }

  function GiveFound(cap: nat): Local -> seq<Row> {
    (l: Local) => SetRows(l.found, cap)
  }

  /** Node 0 reads the sets of the nodes `1` to `m - 1`. */
  function Gather(name: string, stage: nat, cap: nat, time: nat, m: nat): (acts: seq<Act>)
    ensures |acts| == if m <= 1 then 0 else m - 1
  {
    if m <= 1 then []
    else Gather(name, stage, cap, time, m - 1) + [Read(time, DeltaKey(name, stage, m - 1), false, TakeFound(cap))]
  }

  /** The exchange of what was found, in time `time` to `time + 2`. */
  function MergeActs(n: nat, name: string, stage: nat, cap: nat, time: nat): seq<Act> {
    if n == 0 then
      Gather(name, stage, cap, time + 1, NUM_NODES) +
      [Publish(time + 1, DeltaKey(name, stage, 0), "I", GiveFound(cap), NumChunks)]
    else
      [Publish(time, DeltaKey(name, stage, n), "I", GiveFound(cap), NumChunks)] +
      [Read(time + 2, DeltaKey(name, stage, 0), false, TakeFound(cap))]
  }

  function StartTime(k: nat): nat { 10 * k + 2 }

  /** The half of a stage that marks projects. */
  function ProjectActs(x: Input, n: nat, k: nat): seq<Act> {
    [Read(StartTime(k), DeltaKey("users-", k, 0), false, TakeDelta(x.d.users))] +
    ([Read(StartTime(k) + 1, x.d.key, true, TagProjects(x.d.projects))] +
     (MergeActs(n, "projects-", k, x.d.projects, StartTime(k) + 2) +
      [Work(StartTime(k) + 5, (l: Local) => l.(pSet := l.pSet + l.found))]))
  }

  /** The half of a stage that marks users. */
  function UserActs(x: Input, n: nat, k: nat): seq<Act> {
    [Read(StartTime(k) + 5, x.d.key, true, TagUsers(x.d.users))] +
    (MergeActs(n, "users-", k + 1, x.d.users, StartTime(k) + 6) +
     [Work(StartTime(k) + 9, (l: Local) => l.(uSet := l.uSet + l.found))])
  }

  function StageActs(x: Input, n: nat, k: nat): seq<Act> {
    ProjectActs(x, n, k) + UserActs(x, n, k)
  }

  /** Node 0 publishes the commits and Linus. */
  function SetupActs(x: Input, n: nat): seq<Act> {
    if n == 0 then
      [Publish(0, x.d.key, x.types, (l: Local) => x.d.rows, StoredChunks)] +
      [Publish(1, DeltaKey("users-", 0, 0), "I", (l: Local) => [[Int(x.linus)]], NumChunks)]
    else []
  }

  /** The actions of the first `k` stages. */
  function Program(x: Input, n: nat, k: nat): seq<Act> {
    if k == 0 then SetupActs(x, n) else Program(x, n, k - 1) + StageActs(x, n, k - 1)
  }

  // ---------- the frames ----------

  datatype Id = Commits | Projects(k: nat, i: nat) | Users(k: nat, i: nat)

  function KeyOf(x: Input, id: Id): Key {
    match id
    case Commits => x.d.key
    case Projects(k, i) => DeltaKey("projects-", k, i)
    case Users(k, i) => DeltaKey("users-", k, i)
  }

  predicate IsId(x: Input, id: Id) {
    match id
    case Commits => true
    case Projects(k, i) => k < x.degrees && i < NUM_NODES
    case Users(k, i) => k <= x.degrees && i < NUM_NODES && (k == 0 ==> i == 0)
  }

  function Ids(x: Input): (ids: set<Id>)
    ensures forall id :: id in ids <==> IsId(x, id)
  {
    {Commits} + (set k: nat, i: nat | k < x.degrees && i < NUM_NODES :: Projects(k, i)) +
    {Users(0, 0)} + (set k: nat, i: nat | 0 < k <= x.degrees && i < NUM_NODES :: Users(k, i))
  }

  /** The new projects of stage `k`, and the new users. */
  function NewProjects(x: Input, k: nat): set<int> {
    ProjectsAfter(Seen(x.d), x.linus, k + 1) - ProjectsAfter(Seen(x.d), x.linus, k)
  }

  /** What node `i` finds, or for node 0 the union of all, in the two halves of stage `k`. */
  function ProjectsFrom(x: Input, k: nat): (shares: seq<set<int>>)
    ensures |shares| == NUM_NODES
  {
    TouchedShares(x.d, DeltaAfter(Seen(x.d), x.linus, k), ProjectsAfter(Seen(x.d), x.linus, k))
  }

  function UsersFrom(x: Input, k: nat): (shares: seq<set<int>>)
    ensures |shares| == NUM_NODES
  {
    AuthorShares(x.d, NewProjects(x, k), UsersAfter(Seen(x.d), x.linus, k))
  }

  function SetFrame(s: set<int>, cap: nat): Frame {
    Frame("I", SetRows(s, cap), NumChunks(|SetRows(s, cap)|))
  }

  function ContentOf(x: Input, id: Id): Frame {
    match id
    case Commits => Frame(x.types, x.d.rows, StoredChunks(|x.d.rows|))
    case Projects(k, i) =>
      SetFrame(if i == 0 then NewProjects(x, k) else if i < NUM_NODES then ProjectsFrom(x, k)[i] else {}, x.d.projects)
    case Users(k, i) =>
      if k == 0 then Frame("I", [[Int(x.linus)]], NumChunks(1))
      else SetFrame(if i == 0 then DeltaAfter(Seen(x.d), x.linus, k)
                    else if i < NUM_NODES then UsersFrom(x, k - 1)[i] else {}, x.d.users)
  }

  lemma KeysOfIdsDiffer(x: Input, a: Id, b: Id)
    requires InputOk(x) && KeyOf(x, a) == KeyOf(x, b)
    ensures a == b
  {
    hide FrameFits, IsPlain, DeltaName;
    PlainNames();
    match (a, b)
    case (Projects(k, i), Projects(l, j)) =>
      if a != b {
        DeltaNamesDiffer("projects-", k, i, l, j);
      }
    case (Users(k, i), Users(l, j)) =>
      if a != b {
        DeltaNamesDiffer("users-", k, i, l, j);
      }
    case (Projects(k, i), Users(l, j)) => ProjectsAreNoUsers(k, i, l, j);
    case (Users(l, j), Projects(k, i)) => ProjectsAreNoUsers(k, i, l, j);
    case (Commits, Projects(k, i)) => PlainIsNeither(x.d.key.name, "projects-", k, i, 0, 0);
    case (Commits, Users(k, i)) => PlainIsNeither(x.d.key.name, "users-", k, i, 0, 0);
    case (Projects(k, i), Commits) => PlainIsNeither(x.d.key.name, "projects-", k, i, 0, 0);
    case (Users(k, i), Commits) => PlainIsNeither(x.d.key.name, "users-", k, i, 0, 0);
    case (Commits, Commits) =>
  }

  lemma PlainNames()
    ensures IsPlain("projects-") && IsPlain("users-")
  {
  }

  lemma ProjectsAreNoUsers(k: nat, i: nat, l: nat, j: nat)
    ensures DeltaName("projects-", k, i) != DeltaName("users-", l, j)
  {
    hide Decimal;
    assert DeltaName("projects-", k, i)[0] == 'p' && DeltaName("users-", l, j)[0] == 'u';
  }

  ghost function FramesOf(x: Input): (frames: map<Key, Frame>)
    requires InputOk(x)
    ensures forall id | IsId(x, id) :: KeyOf(x, id) in frames && frames[KeyOf(x, id)] == ContentOf(x, id)
    ensures forall k <- frames :: exists id | IsId(x, id) :: k == KeyOf(x, id)
  {
    forall a, b | KeyOf(x, a) == KeyOf(x, b) ensures a == b {
      KeysOfIdsDiffer(x, a, b);
    }
    var frames := map id | id in Ids(x) :: KeyOf(x, id) := ContentOf(x, id);
    forall k <- frames ensures exists id | IsId(x, id) :: k == KeyOf(x, id) {
      var id :| id in Ids(x) && k == KeyOf(x, id);
    }
    frames
  }

  // ---------- the frames fit ----------

  lemma SetRowsHold(s: set<int>, cap: nat)
    requires cap <= INT_LIMIT && forall e <- s :: 0 <= e < cap
    ensures FrameFits("I", SetRows(s, cap)) && Numbers(SetRows(s, cap)) == s && Below(s, cap) == s
  {
    hide FrameFits, Listed;
    var vals := seq(cap, i requires 0 <= i < cap => i in s);
    ListedFits(vals);
    BelowAll(s, cap);
    var rows := Listed(vals);
    forall e ensures e in Numbers(rows) <==> e in s {
      if e in Numbers(rows) {
        var i :| 0 <= i < |rows| && rows[i] != [] && rows[i][0].Int? && rows[i][0].i == e;
        ListedAre(vals, rows[i]);
      }
      if e in s {
        ListedAre(vals, [Int(e)]);
        var i :| 0 <= i < |rows| && rows[i] == [Int(e)];
      }
    }
  }

  lemma SharesInRange(x: Input, k: nat)
    ensures forall e <- NewProjects(x, k) :: 0 <= e < x.d.projects
    ensures forall e <- DeltaAfter(Seen(x.d), x.linus, k) :: 0 <= e < x.d.users
    ensures forall i, e | 0 <= i < NUM_NODES && e in ProjectsFrom(x, k)[i] :: 0 <= e < x.d.projects
    ensures forall i, e | 0 <= i < NUM_NODES && e in UsersFrom(x, k)[i] :: 0 <= e < x.d.users
  {
    hide LocalCommits, AllShown;
  }

  lemma LinusRowFits(linus: int)
    requires -INT_LIMIT <= linus < INT_LIMIT
    ensures var rows: seq<Row> := [[Int(linus)]]; FrameFits("I", rows) && Numbers(rows) == {linus}
  {
    var rows: seq<Row> := [[Int(linus)]];
    assert rows[0][0].i == linus;
  }

  lemma ContentFits(x: Input, id: Id)
    requires InputOk(x) && IsId(x, id)
    ensures var f := ContentOf(x, id); FrameFits(f.types, f.rows) && NumChunks(|f.rows|) <= f.chunks
  {
    hide FrameFits, NumChunks, SetRows, ProjectsFrom, UsersFrom, NewProjects, DeltaAfter, IsPlain;
    match id
    case Commits =>
    case Projects(k, i) =>
      SharesInRange(x, k);
      SetRowsHold(if i == 0 then NewProjects(x, k) else ProjectsFrom(x, k)[i], x.d.projects);
    case Users(k, i) =>
      if k == 0 {
        LinusRowFits(x.linus);
      } else {
        SharesInRange(x, k - 1);
        SharesInRange(x, k);
        SetRowsHold(if i == 0 then DeltaAfter(Seen(x.d), x.linus, k) else UsersFrom(x, k - 1)[i], x.d.users);
      }
  }

  lemma KeysFit(x: Input, id: Id, other: string, col: nat, chunk: nat)
    requires InputOk(x) && IsId(x, id)
    ensures '\0' !in KeyOf(x, id).name && KeyOf(x, id).node < NUM_NODES
    ensures KeyOf(x, id).name != ChunkName(other, col, chunk)
  {
    hide FrameFits, IsPlain, DeltaName, ChunkName;
    PlainNames();
    match id
    case Commits =>
      PlainIsNeither(x.d.key.name, other, 0, 0, col, chunk);
      PlainHasNoNul(x.d.key.name);
    case Projects(k, i) =>
      NoNulInDelta("projects-", k, i);
      DeltaIsNoChunk("projects-", k, i, other, col, chunk);
    case Users(k, i) =>
      NoNulInDelta("users-", k, i);
      DeltaIsNoChunk("users-", k, i, other, col, chunk);
  }

  lemma PlainHasNoNul(name: string)
    requires IsPlain(name)
    ensures '\0' !in name
  {
  }

  lemma LinusFramesFit(x: Input)
    requires InputOk(x)
    ensures FramesFit(FramesOf(x))
  {
    hide FrameFits, InputOk, KeyOf, ContentOf, ChunkName, NumChunks;
    var frames := FramesOf(x);
    forall k <- frames
      ensures '\0' !in k.name && k.node < NUM_NODES
      ensures FrameFits(frames[k].types, frames[k].rows) && NumChunks(|frames[k].rows|) <= frames[k].chunks
    {
      var id :| IsId(x, id) && k == KeyOf(x, id);
      KeysFit(x, id, "", 0, 0);
      ContentFits(x, id);
    }
    forall k <- frames, k' <- frames, col, chunk ensures k.name != ChunkName(k'.name, col, chunk) {
      var id :| IsId(x, id) && k == KeyOf(x, id);
      KeysFit(x, id, k'.name, col, chunk);
    }
  }

  // ---------- the exchange ----------

  /** The frames of an exchange: each node's share, and for node 0 the union. */
  ghost predicate Exchanged(frames: map<Key, Frame>, name: string, stage: nat, cap: nat, shares: seq<set<int>>) {
    && |shares| == NUM_NODES
    && (forall i, e | 0 <= i < NUM_NODES && e in shares[i] :: 0 <= e < cap)
    && (forall i | 0 <= i < NUM_NODES :: ExchangedAt(frames, name, stage, cap, shares, i))
  }

  ghost predicate ExchangedAt(frames: map<Key, Frame>, name: string, stage: nat, cap: nat, shares: seq<set<int>>, i: nat)
    requires i < |shares|
  {
    && DeltaKey(name, stage, i) in frames
    && frames[DeltaKey(name, stage, i)] == SetFrame(if i == 0 then UnionOf(shares) else shares[i], cap)
  }

  lemma {:induction false} GatherAll(frames: map<Key, Frame>, name: string, stage: nat, cap: nat, time: nat,
                                     shares: seq<set<int>>, l: Local, m: nat)
    requires Exchanged(frames, name, stage, cap, shares) && cap <= INT_LIMIT && 1 <= m <= NUM_NODES
    requires l.found == shares[0]
    ensures var acts := Gather(name, stage, cap, time, m);
            && SoundAll(frames, 0, l, acts)
            && DoAll(frames, 0, l, acts) == l.(found := UnionOf(shares[..m]))
  {
    hide DeltaKey, SetRows, Numbers, Below, SoundAll, DoAll;
    if m == 1 {
      NoActs(frames, 0, l);
      assert shares[..1][..0] == [];
    } else {
      GatherAll(frames, name, stage, cap, time, shares, l, m - 1);
      assert ExchangedAt(frames, name, stage, cap, shares, m - 1);
      var a := Action.Read(time, DeltaKey(name, stage, m - 1), false, TakeFound(cap));
      var l1 := l.(found := UnionOf(shares[..m - 1]));
      DoOne(frames, 0, l1, a);
      InSequence(frames, 0, l, Gather(name, stage, cap, time, m - 1), [a]);
      SetRowsHold(shares[m - 1], cap);
      assert shares[..m][..m - 1] == shares[..m - 1];
    }
  }

  lemma NoActs(frames: map<Key, Frame>, n: nat, l: Local)
    ensures SoundAll(frames, n, l, []) && DoAll(frames, n, l, []) == l
  {
  }

  lemma {:induction false} UnionInRange(shares: seq<set<int>>, cap: nat)
    requires forall i, e | 0 <= i < |shares| && e in shares[i] :: 0 <= e < cap
    ensures forall e <- UnionOf(shares) :: 0 <= e < cap
    ensures forall i | 0 <= i < |shares| :: shares[i] <= UnionOf(shares)
  {
    forall e ensures e in UnionOf(shares) <==> exists n | 0 <= n < |shares| :: e in shares[n] {
      UnionOfIs(shares, e);
    }
  }

  /** After the exchange every node has the union, and each has published what the frames say. */
  lemma MergeAll(frames: map<Key, Frame>, n: nat, name: string, stage: nat, cap: nat, time: nat,
                 shares: seq<set<int>>, l: Local)
    requires Exchanged(frames, name, stage, cap, shares) && cap <= INT_LIMIT && n < NUM_NODES
    requires l.found == shares[n]
    ensures var acts := MergeActs(n, name, stage, cap, time);
            && SoundAll(frames, n, l, acts)
            && DoAll(frames, n, l, acts) == l.(found := UnionOf(shares))
  {
    hide DeltaKey, SetRows, Numbers, Below, SoundAll, DoAll, NumChunks;
    UnionInRange(shares, cap);
    var all := UnionOf(shares);
    assert ExchangedAt(frames, name, stage, cap, shares, 0) && ExchangedAt(frames, name, stage, cap, shares, n);
    if n == 0 {
      GatherAll(frames, name, stage, cap, time + 1, shares, l, NUM_NODES);
      assert shares[..NUM_NODES] == shares;
      var a: Act := Action.Publish(time + 1, DeltaKey(name, stage, 0), "I", GiveFound(cap), NumChunks);
      DoOne(frames, 0, l.(found := all), a);
      InSequence(frames, 0, l, Gather(name, stage, cap, time + 1, NUM_NODES), [a]);
    } else {
      var a: Act := Action.Publish(time, DeltaKey(name, stage, n), "I", GiveFound(cap), NumChunks);
      var b := Action.Read(time + 2, DeltaKey(name, stage, 0), false, TakeFound(cap));
      DoOne(frames, n, l, a);
      DoOne(frames, n, l, b);
      InSequence(frames, n, l, [a], [b]);
      SetRowsHold(all, cap);
      assert shares[n] + all == all;
    }
  }

  // ---------- one stage ----------

  lemma DeltaRead(x: Input, k: nat)
    requires InputOk(x) && k <= x.degrees
    ensures Below(Numbers(ContentOf(x, Users(k, 0)).rows), x.d.users) == DeltaAfter(Seen(x.d), x.linus, k)
  {
    hide FrameFits, SetRows, UsersAfter, IsPlain, AllShown;
    SharesInRange(x, k);
    if k == 0 {
      LinusRowFits(x.linus);
    } else {
      SetRowsHold(DeltaAfter(Seen(x.d), x.linus, k), x.d.users);
    }
  }

  lemma ProjectsExchanged(x: Input, k: nat)
    requires InputOk(x) && k < x.degrees
    ensures Exchanged(FramesOf(x), "projects-", k, x.d.projects, ProjectsFrom(x, k))
    ensures UnionOf(ProjectsFrom(x, k)) == NewProjects(x, k)
  {
    hide SetRows, Touched, Authors, UsersAfter, ProjectsAfter, FrameFits, InputOk, DeltaAfter, LocalCommits, AllShown;
    SharesInRange(x, k);
    SharesAddUp(x.d, DeltaAfter(Seen(x.d), x.linus, k), ProjectsAfter(Seen(x.d), x.linus, k));
    DeltaSuffices(Seen(x.d), x.linus, k);
    forall i | 0 <= i < NUM_NODES
      ensures ExchangedAt(FramesOf(x), "projects-", k, x.d.projects, ProjectsFrom(x, k), i)
    {
      assert IsId(x, Projects(k, i)) && KeyOf(x, Projects(k, i)) == DeltaKey("projects-", k, i);
    }
  }

  lemma UsersExchanged(x: Input, k: nat)
    requires InputOk(x) && k < x.degrees
    ensures Exchanged(FramesOf(x), "users-", k + 1, x.d.users, UsersFrom(x, k))
    ensures UnionOf(UsersFrom(x, k)) == DeltaAfter(Seen(x.d), x.linus, k + 1)
  {
    hide SetRows, Touched, Authors, UsersAfter, ProjectsAfter, FrameFits, InputOk, DeltaAfter, Seen, NewProjects, AuthorShares,
      UnionOf, Below, Numbers, ContentOf, SetFrame, DeltaName;
    SharesInRange(x, k);
    SharesAddUp(x.d, NewProjects(x, k), UsersAfter(Seen(x.d), x.linus, k));
    SeenSizes(x.d);
    NewOnes(x, k);
    var stage := k + 1;
    forall i | 0 <= i < NUM_NODES
      ensures ExchangedAt(FramesOf(x), "users-", stage, x.d.users, UsersFrom(x, k), i)
    {
      assert IsId(x, Users(stage, i)) && KeyOf(x, Users(stage, i)) == DeltaKey("users-", stage, i);
      UsersContent(x, k, i);
    }
  }

  lemma UsersContent(x: Input, k: nat, i: nat)
    requires i < NUM_NODES
    ensures ContentOf(x, Users(k + 1, i)) ==
            SetFrame(if i == 0 then DeltaAfter(Seen(x.d), x.linus, k + 1) else UsersFrom(x, k)[i], x.d.users)
  {
    hide SetFrame, DeltaAfter, UsersFrom, Seen;
  }

  lemma SeenSizes(d: Data)
    ensures Seen(d).projects == d.projects && Seen(d).users == d.users
  {
  }

  /** The new projects and users of a stage, from the deltas alone. */
  lemma NewOnes(x: Input, k: nat)
    ensures var r := Seen(x.d);
            && NewProjects(x, k) == Touched(r.commits, DeltaAfter(r, x.linus, k), r.projects) - ProjectsAfter(r, x.linus, k)
            && ProjectsAfter(r, x.linus, k) + NewProjects(x, k) == ProjectsAfter(r, x.linus, k + 1)
            && DeltaAfter(r, x.linus, k + 1) == Authors(r.commits, NewProjects(x, k), r.users) - UsersAfter(r, x.linus, k)
            && UsersAfter(r, x.linus, k) + DeltaAfter(r, x.linus, k + 1) == UsersAfter(r, x.linus, k + 1)
  {
    hide Touched, Authors, UsersAfter, ProjectsAfter, DeltaAfter, Seen;
    DeltaSuffices(Seen(x.d), x.linus, k);
  }

  /** Before stage `k` a node has the reference sets. */
  predicate AtStage(x: Input, k: nat, l: Local) {
    l.pSet == ProjectsAfter(Seen(x.d), x.linus, k) && l.uSet == UsersAfter(Seen(x.d), x.linus, k)
  }

  lemma TagsProjects(x: Input, n: nat, k: nat, l: Local)
    requires AtStage(x, k, l) && l.delta == DeltaAfter(Seen(x.d), x.linus, k) && n < NUM_NODES
    ensures TagProjects(x.d.projects)(l, LocalRows(x.d, n)) ==
            l.(pSet := l.pSet + ProjectsFrom(x, k)[n], found := ProjectsFrom(x, k)[n])
  {
    hide Touched, UsersAfter, ProjectsAfter, DeltaAfter, LocalRows;
  }

  lemma TagsUsers(x: Input, n: nat, k: nat, l: Local)
    requires l.uSet == UsersAfter(Seen(x.d), x.linus, k) && l.found == NewProjects(x, k) && n < NUM_NODES
    ensures TagUsers(x.d.users)(l, LocalRows(x.d, n)) ==
            l.(uSet := l.uSet + UsersFrom(x, k)[n], found := UsersFrom(x, k)[n])
  {
    hide Authors, UsersAfter, ProjectsAfter, DeltaAfter, LocalRows;
  }

  /** Reading a frame of the run, as an action. */
  lemma ReadsFrame(x: Input, id: Id, n: nat, time: nat, local: bool, take: (Local, seq<Row>) -> Local, l: Local)
    requires InputOk(x) && IsId(x, id)
    ensures var acts := [Action.Read(time, KeyOf(x, id), local, take)];
            && SoundAll(FramesOf(x), n, l, acts)
            && DoAll(FramesOf(x), n, l, acts) == take(l, RowsFor(KeyOf(x, id), ContentOf(x, id).rows, n, local))
  {
    hide InputOk, KeyOf, ContentOf, RowsFor;
    DoOne(FramesOf(x), n, l, Action.Read(time, KeyOf(x, id), local, take));
  }

  lemma ProjectHalf(x: Input, n: nat, k: nat, l: Local)
    requires InputOk(x) && n < NUM_NODES && k < x.degrees && AtStage(x, k, l)
    ensures var acts, r := ProjectActs(x, n, k), Seen(x.d);
            && SoundAll(FramesOf(x), n, l, acts)
            && var l' := DoAll(FramesOf(x), n, l, acts);
               && l'.pSet == ProjectsAfter(r, x.linus, k + 1) && l'.uSet == UsersAfter(r, x.linus, k)
               && l'.found == NewProjects(x, k)
  {
    hide SoundAll, DoAll, MergeActs, FramesOf, InputOk, ContentOf, ProjectsAfter, UsersAfter, DeltaAfter, Seen, NewProjects,
      ProjectsFrom, Exchanged, LocalRows, DeltaKey, UnionOf;
    var frames, t := FramesOf(x), StartTime(k);
    var delta, had := DeltaAfter(Seen(x.d), x.linus, k), ProjectsFrom(x, k)[n];
    var acts1: seq<Act> := [Action.Read(t, DeltaKey("users-", k, 0), false, TakeDelta(x.d.users))];
    var acts2: seq<Act> := [Action.Read(t + 1, x.d.key, true, TagProjects(x.d.projects))];
    var acts3: seq<Act> := MergeActs(n, "projects-", k, x.d.projects, t + 2);
    var work: Act := Action.Work(t + 5, (l: Local) => l.(pSet := l.pSet + l.found));
    var l1 := l.(delta := delta);
    var l2 := l1.(pSet := l.pSet + had, found := had);
    var l3 := l2.(found := NewProjects(x, k));
    ReadsFrame(x, Users(k, 0), n, t, false, TakeDelta(x.d.users), l);
    DeltaRead(x, k);
    ReadsFrame(x, Commits, n, t + 1, true, TagProjects(x.d.projects), l1);
    CommitsRead(x, n);
    TagsProjects(x, n, k, l1);
    ProjectsExchanged(x, k);
    CapFits(x);
    MergeAll(frames, n, "projects-", k, x.d.projects, t + 2, ProjectsFrom(x, k), l2);
    DoOne(frames, n, l3, work);
    InSequence(frames, n, l2, acts3, [work]);
    InSequence(frames, n, l1, acts2, acts3 + [work]);
    InSequence(frames, n, l, acts1, acts2 + (acts3 + [work]));
    NewOnes(x, k);
    InUnion(ProjectsFrom(x, k), n);
    assert (l.pSet + had) + NewProjects(x, k) == l.pSet + NewProjects(x, k);
  }

  lemma CommitsRead(x: Input, n: nat)
    requires InputOk(x)
    ensures IsId(x, Commits) && KeyOf(x, Commits) == x.d.key
    ensures RowsFor(x.d.key, ContentOf(x, Commits).rows, n, true) == LocalRows(x.d, n)
    ensures IsId(x, Users(0, 0)) && KeyOf(x, Users(0, 0)) == DeltaKey("users-", 0, 0)
  {
  }

  lemma CapFits(x: Input)
    requires InputOk(x)
    ensures x.d.projects <= INT_LIMIT && x.d.users <= INT_LIMIT
  {
  }

  lemma InUnion(shares: seq<set<int>>, n: nat)
    requires n < |shares|
    ensures shares[n] <= UnionOf(shares)
  {
    hide UnionOf;
    forall e <- shares[n] ensures e in UnionOf(shares) {
      UnionOfIs(shares, e);
    }
  }

  lemma UserHalf(x: Input, n: nat, k: nat, l: Local)
    requires InputOk(x) && n < NUM_NODES && k < x.degrees
    requires l.pSet == ProjectsAfter(Seen(x.d), x.linus, k + 1) && l.uSet == UsersAfter(Seen(x.d), x.linus, k)
    requires l.found == NewProjects(x, k)
    ensures var acts := UserActs(x, n, k);
            && SoundAll(FramesOf(x), n, l, acts)
            && AtStage(x, k + 1, DoAll(FramesOf(x), n, l, acts))
  {
    hide SoundAll, DoAll, MergeActs, FramesOf, InputOk, ContentOf, ProjectsAfter, UsersAfter, DeltaAfter, Seen, NewProjects,
      UsersFrom, Exchanged, LocalRows, DeltaKey, UnionOf;
    var frames, t := FramesOf(x), StartTime(k);
    var newU, had := DeltaAfter(Seen(x.d), x.linus, k + 1), UsersFrom(x, k)[n];
    var acts1: seq<Act> := [Action.Read(t + 5, x.d.key, true, TagUsers(x.d.users))];
    var acts2: seq<Act> := MergeActs(n, "users-", k + 1, x.d.users, t + 6);
    var work: Act := Action.Work(t + 9, (l: Local) => l.(uSet := l.uSet + l.found));
    var l1 := l.(uSet := l.uSet + had, found := had);
    var l2 := l1.(found := newU);
    ReadsFrame(x, Commits, n, t + 5, true, TagUsers(x.d.users), l);
    CommitsRead(x, n);
    TagsUsers(x, n, k, l);
    UsersExchanged(x, k);
    CapFits(x);
    MergeAll(frames, n, "users-", k + 1, x.d.users, t + 6, UsersFrom(x, k), l1);
    DoOne(frames, n, l2, work);
    InSequence(frames, n, l1, acts2, [work]);
    InSequence(frames, n, l, acts1, acts2 + [work]);
    NewOnes(x, k);
    InUnion(UsersFrom(x, k), n);
    assert (l.uSet + had) + newU == l.uSet + newU;
  }

  /** The program of a node leads from nothing to the reference sets, soundly. */
  lemma {:induction false} ProgramReaches(x: Input, n: nat, k: nat)
    requires InputOk(x) && n < NUM_NODES && k <= x.degrees
    ensures SoundAll(FramesOf(x), n, Start(), Program(x, n, k))
    ensures AtStage(x, k, DoAll(FramesOf(x), n, Start(), Program(x, n, k)))
  {
    hide SoundAll, DoAll, ProjectActs, UserActs, FramesOf, InputOk, AtStage, SetupActs;
    if k == 0 {
      SetupReaches(x, n);
    } else {
      ProgramReaches(x, n, k - 1);
      var l := DoAll(FramesOf(x), n, Start(), Program(x, n, k - 1));
      StageReaches(x, n, k - 1, l);
      InSequence(FramesOf(x), n, Start(), Program(x, n, k - 1), StageActs(x, n, k - 1));
    }
  }

  function Start(): Local { Local({}, {}, {}, {}) }

  lemma StageReaches(x: Input, n: nat, k: nat, l: Local)
    requires InputOk(x) && n < NUM_NODES && k < x.degrees && AtStage(x, k, l)
    ensures SoundAll(FramesOf(x), n, l, StageActs(x, n, k))
    ensures AtStage(x, k + 1, DoAll(FramesOf(x), n, l, StageActs(x, n, k)))
  {
    hide SoundAll, DoAll, ProjectActs, UserActs, FramesOf, InputOk;
    ProjectHalf(x, n, k, l);
    var l' := DoAll(FramesOf(x), n, l, ProjectActs(x, n, k));
    UserHalf(x, n, k, l');
    InSequence(FramesOf(x), n, l, ProjectActs(x, n, k), UserActs(x, n, k));
  }

  lemma SetupReaches(x: Input, n: nat)
    requires InputOk(x) && n < NUM_NODES
    ensures SoundAll(FramesOf(x), n, Start(), SetupActs(x, n))
    ensures AtStage(x, 0, DoAll(FramesOf(x), n, Start(), SetupActs(x, n)))
  {
    hide SoundAll, DoAll, FramesOf, InputOk, DeltaKey;
    var frames := FramesOf(x);
    NoActs(frames, n, Start());
    CommitsRead(x, n);
    if n == 0 {
      var a: Act := Action.Publish(0, x.d.key, x.types, (l: Local) => x.d.rows, StoredChunks);
      var b: Act := Action.Publish(1, DeltaKey("users-", 0, 0), "I", (l: Local) => [[Int(x.linus)]], NumChunks);
      DoOne(frames, n, Start(), a);
      DoOne(frames, n, Start(), b);
      InSequence(frames, n, Start(), [a], [b]);
    }
  }

  // ---------- own frames first ----------

  /** What the actions read and publish of frames on their own node. */
  predicate ReadsOnly(acts: seq<Act>, n: nat, a: Key, b: Key) {
    forall i | 0 <= i < |acts| && acts[i].Read? && acts[i].key.node == n :: acts[i].key == a || acts[i].key == b
  }

  lemma {:induction false} GatherReads(name: string, stage: nat, cap: nat, time: nat, m: nat, a: Key, b: Key)
    ensures ReadsOnly(Gather(name, stage, cap, time, m), 0, a, b)
  {
    hide DeltaName;
    if m > 1 {
      GatherReads(name, stage, cap, time, m - 1, a, b);
    }
  }

  lemma MergeReads(n: nat, name: string, stage: nat, cap: nat, time: nat, a: Key, b: Key)
    ensures ReadsOnly(MergeActs(n, name, stage, cap, time), n, a, b)
  {
    hide DeltaName, Gather;
    if n == 0 {
      GatherReads(name, stage, cap, time + 1, NUM_NODES, a, b);
    }
  }

  /** In a stage a node reads only the commits, and the users of the stage before, off its own node. */
  lemma StageReads(x: Input, n: nat, k: nat)
    ensures ReadsOnly(StageActs(x, n, k), n, x.d.key, DeltaKey("users-", k, 0))
  {
    hide DeltaName, MergeActs;
    var a, b := x.d.key, DeltaKey("users-", k, 0);
    MergeReads(n, "projects-", k, x.d.projects, StartTime(k) + 2, a, b);
    MergeReads(n, "users-", k + 1, x.d.users, StartTime(k) + 6, a, b);
  }

  /** Node 0 publishes the merged users at the end of a stage. */
  lemma StagePublishes(x: Input, k: nat)
    ensures Publishes(StageActs(x, 0, k), DeltaKey("users-", k + 1, 0))
  {
    hide DeltaKey, Gather, ProjectActs;
    var t := StartTime(k);
    var last: Act := Action.Publish(t + 7, DeltaKey("users-", k + 1, 0), "I", GiveFound(x.d.users), NumChunks);
    var g: seq<Act> := Gather("users-", k + 1, x.d.users, t + 7, NUM_NODES);
    var work: Act := Action.Work(t + 9, (l: Local) => l.(uSet := l.uSet + l.found));
    var first: Act := Action.Read(t + 5, x.d.key, true, TagUsers(x.d.users));
    assert [last][0] == last;
    PublishesMore(g, [last], last.key);
    PublishesMore(g + [last], [work], last.key);
    PublishesMore([first], (g + [last]) + [work], last.key);
    PublishesMore(ProjectActs(x, 0, k), UserActs(x, 0, k), last.key);
  }

  lemma {:induction false} ProgramPublishes(x: Input, k: nat)
    ensures Publishes(Program(x, 0, k), x.d.key) && Publishes(Program(x, 0, k), DeltaKey("users-", k, 0))
  {
    hide DeltaKey, StageActs;
    if k == 0 {
      var acts := SetupActs(x, 0);
      assert acts[0].key == x.d.key && acts[1].key == DeltaKey("users-", 0, 0);
    } else {
      ProgramPublishes(x, k - 1);
      StagePublishes(x, k - 1);
      PublishesMore(Program(x, 0, k - 1), StageActs(x, 0, k - 1), x.d.key);
      PublishesMore(Program(x, 0, k - 1), StageActs(x, 0, k - 1), DeltaKey("users-", k, 0));
    }
  }

  lemma {:induction false} ProgramOwnFirst(x: Input, n: nat, k: nat)
    requires InputOk(x)
    ensures OwnFirst(Program(x, n, k), n)
  {
    hide DeltaName, StageActs, Publishes;
    if k > 0 {
      ProgramOwnFirst(x, n, k - 1);
      StageReads(x, n, k - 1);
      ProgramPublishes(x, k - 1);
      OwnFirstMore(Program(x, n, k - 1), StageActs(x, n, k - 1), n);
    }
  }

  // ---------- the job ----------

  ghost function LinusJob(x: Input): (job: Job<Local>)
    requires InputOk(x)
    ensures |job.progs| == |job.inits| == NUM_NODES && FramesFit(job.frames)
  {
    LinusFramesFit(x);
    Job(FramesOf(x), seq(NUM_NODES, n requires 0 <= n < NUM_NODES => Program(x, n, x.degrees)), seq(NUM_NODES, n => Start()))
  }

  lemma LinusJobSound(x: Input)
    requires InputOk(x)
    ensures Sound(LinusJob(x))
  {
    hide FramesOf, InputOk, Program, SoundAll, OwnFirst;
    LinusFramesFit(x);
    forall n | 0 <= n < NUM_NODES
      ensures SoundAll(FramesOf(x), n, Start(), Program(x, n, x.degrees)) && OwnFirst(Program(x, n, x.degrees), n)
    {
      ProgramReaches(x, n, x.degrees);
      ProgramOwnFirst(x, n, x.degrees);
    }
  }

  /**
   In every interleaving of the nodes' messages, publications, reads and
   computations, a node that has finished holds the projects and users of the
   plain recomputation.
   */
  lemma EveryScheduleReaches(x: Input, sys: System<Local>, n: nat)
    requires InputOk(x) && n < NUM_NODES
    requires SystemReachable(LinusJob(x), sys)
    ensures n < |sys.clients|
    ensures sys.clients[n].pc == |LinusJob(x).progs[n]| ==>
              && sys.clients[n].value.pSet == ProjectsAfter(Seen(x.d), x.linus, x.degrees)
              && sys.clients[n].value.uSet == UsersAfter(Seen(x.d), x.linus, x.degrees)
  {
    hide FramesOf, InputOk, Program, Sound, SystemReachable, DoAll;
    LinusJobSound(x);
    ScheduleDoesNotMatter(LinusJob(x), sys, n);
    ProgramReaches(x, n, x.degrees);
    var prog := LinusJob(x).progs[n];
    assert prog[..|prog|] == prog;
  }

  // ---------- times ----------

  lemma {:induction false} GatherTimes(name: string, stage: nat, cap: nat, time: nat, m: nat)
    ensures TimesWithin(Gather(name, stage, cap, time, m), time, time)
  {
    hide DeltaKey;
    if m > 1 {
      GatherTimes(name, stage, cap, time, m - 1);
      TimesMore(Gather(name, stage, cap, time, m - 1),
                [Action.Read(time, DeltaKey(name, stage, m - 1), false, TakeFound(cap))], time, time, time, time);
    }
  }

  lemma MergeTimes(n: nat, name: string, stage: nat, cap: nat, time: nat)
    ensures TimesWithin(MergeActs(n, name, stage, cap, time), time, time + 2)
  {
    hide DeltaKey, Gather;
    GatherTimes(name, stage, cap, time + 1, NUM_NODES);
  }

  lemma StageTimes(x: Input, n: nat, k: nat)
    ensures TimesWithin(StageActs(x, n, k), StartTime(k), StartTime(k) + 9)
  {
    hide DeltaKey, MergeActs;
    var t := StartTime(k);
    MergeTimes(n, "projects-", k, x.d.projects, t + 2);
    MergeTimes(n, "users-", k + 1, x.d.users, t + 6);
    assert TimesWithin(ProjectActs(x, n, k), t, t + 5);
    assert TimesWithin(UserActs(x, n, k), t + 5, t + 9);
    TimesMore(ProjectActs(x, n, k), UserActs(x, n, k), t, t + 5, t + 5, t + 9);
  }

  lemma {:induction false} ProgramTimes(x: Input, n: nat, k: nat)
    ensures TimesWithin(Program(x, n, k), 0, 10 * k + 1)
  {
    hide DeltaKey, StageActs;
    if k > 0 {
      ProgramTimes(x, n, k - 1);
      StageTimes(x, n, k - 1);
      TimesMore(Program(x, n, k - 1), StageActs(x, n, k - 1), 0, 10 * k - 9, 10 * k - 8, 10 * k + 1);
    }
  }

  // ---------- every frame read is published earlier ----------

  /** What a node publishes in a stage it publishes in the program. */
  lemma {:induction false} InProgram(x: Input, m: nat, k: nat, degrees: nat, key: Key, time: nat)
    requires k < degrees && PublishesBefore(StageActs(x, m, k), key, time)
    ensures PublishesBefore(Program(x, m, degrees), key, time)
  {
    hide StageActs, PublishesBefore;
    if k < degrees - 1 {
      InProgram(x, m, k, degrees - 1, key, time);
    }
    BeforeMore(Program(x, m, degrees - 1), StageActs(x, m, degrees - 1), key, time);
  }

  lemma {:induction false} FromPrefix(x: Input, m: nat, k: nat, degrees: nat, key: Key, time: nat)
    requires k <= degrees && PublishesBefore(Program(x, m, k), key, time)
    ensures PublishesBefore(Program(x, m, degrees), key, time)
  {
    hide StageActs, PublishesBefore;
    if k < degrees {
      FromPrefix(x, m, k, degrees - 1, key, time);
      BeforeMore(Program(x, m, degrees - 1), StageActs(x, m, degrees - 1), key, time);
    }
  }

  /** The commits and the users of the stage before are published when a stage begins. */
  lemma StageInputs(x: Input, k: nat, time: nat)
    requires k <= x.degrees && StartTime(k) <= time
    ensures PublishesBefore(Program(x, 0, x.degrees), x.d.key, time)
    ensures PublishesBefore(Program(x, 0, x.degrees), DeltaKey("users-", k, 0), time)
  {
    hide DeltaKey, PublishesBefore, Program, Publishes;
    ProgramPublishes(x, k);
    ProgramTimes(x, 0, k);
    PublishedWithin(Program(x, 0, k), x.d.key, 0, 10 * k + 1, time);
    PublishedWithin(Program(x, 0, k), DeltaKey("users-", k, 0), 0, 10 * k + 1, time);
    FromPrefix(x, 0, k, x.degrees, x.d.key, time);
    FromPrefix(x, 0, k, x.degrees, DeltaKey("users-", k, 0), time);
  }

  /** In an exchange each node publishes its set before node 0 reads it, and node 0 the union before the others do. */
  lemma MergePublishes(m: nat, name: string, stage: nat, cap: nat, time: nat)
    ensures m > 0 ==> PublishesBefore(MergeActs(m, name, stage, cap, time), DeltaKey(name, stage, m), time + 1)
    ensures m == 0 ==> PublishesBefore(MergeActs(m, name, stage, cap, time), DeltaKey(name, stage, 0), time + 2)
  {
    hide DeltaKey, Gather;
    if m > 0 {
      var a: Act := Action.Publish(time, DeltaKey(name, stage, m), "I", GiveFound(cap), NumChunks);
      assert [a][0] == a;
      BeforeMore([a], [Action.Read(time + 2, DeltaKey(name, stage, 0), false, TakeFound(cap))], a.key, time + 1);
    } else {
      var a: Act := Action.Publish(time + 1, DeltaKey(name, stage, 0), "I", GiveFound(cap), NumChunks);
      assert [a][0] == a;
      BeforeMore(Gather(name, stage, cap, time + 1, NUM_NODES), [a], a.key, time + 2);
    }
  }

  /** The exchange is served once its own publications are part of the job. */
  ghost predicate MergeInJob(job: Job<Local>, name: string, stage: nat, cap: nat, time: nat) {
    forall m, key, t | 0 <= m < NUM_NODES && PublishesBefore(MergeActs(m, name, stage, cap, time), key, t) ::
      m < |job.progs| && PublishesBefore(job.progs[m], key, t)
  }

  lemma {:induction false} GatherServed(job: Job<Local>, name: string, stage: nat, cap: nat, time: nat, m: nat)
    requires MergeInJob(job, name, stage, cap, time) && m <= NUM_NODES
    ensures Served(job, Gather(name, stage, cap, time + 1, m))
  {
    hide DeltaKey, MergeActs, PublishesBefore, Served;
    if m <= 1 {
      NothingServed(job);
    } else {
      GatherServed(job, name, stage, cap, time, m - 1);
      MergePublishes(m - 1, name, stage, cap, time);
      var a := Action.Read(time + 1, DeltaKey(name, stage, m - 1), false, TakeFound(cap));
      ServedOne(job, a, m - 1);
      ServedMore(job, Gather(name, stage, cap, time + 1, m - 1), [a]);
    }
  }

  lemma NothingServed(job: Job<Local>)
    ensures Served(job, [])
  {
  }

  lemma MergeServed(job: Job<Local>, n: nat, name: string, stage: nat, cap: nat, time: nat)
    requires MergeInJob(job, name, stage, cap, time)
    ensures Served(job, MergeActs(n, name, stage, cap, time))
  {
    hide DeltaKey, Gather, PublishesBefore, Served, MergeInJob;
    if n == 0 {
      GatherServed(job, name, stage, cap, time, NUM_NODES);
      var a: Act := Action.Publish(time + 1, DeltaKey(name, stage, 0), "I", GiveFound(cap), NumChunks);
      ServedOne(job, a, 0);
      ServedMore(job, Gather(name, stage, cap, time + 1, NUM_NODES), [a]);
    } else {
      MergePublishes(0, name, stage, cap, time);
      var a: Act := Action.Publish(time, DeltaKey(name, stage, n), "I", GiveFound(cap), NumChunks);
      var b := Action.Read(time + 2, DeltaKey(name, stage, 0), false, TakeFound(cap));
      MergedInJob(job, name, stage, cap, time, 0, b.key, time + 2);
      ServedOne(job, a, 0);
      ServedOne(job, b, 0);
      ServedMore(job, [a], [b]);
    }
  }

  lemma MergedInJob(job: Job<Local>, name: string, stage: nat, cap: nat, time: nat, m: nat, key: Key, t: nat)
    requires MergeInJob(job, name, stage, cap, time) && m < NUM_NODES
    requires PublishesBefore(MergeActs(m, name, stage, cap, time), key, t)
    ensures m < |job.progs| && PublishesBefore(job.progs[m], key, t)
  {
  }

  lemma StageMerges(x: Input, k: nat)
    requires InputOk(x) && k < x.degrees
    ensures MergeInJob(LinusJob(x), "projects-", k, x.d.projects, StartTime(k) + 2)
    ensures MergeInJob(LinusJob(x), "users-", k + 1, x.d.users, StartTime(k) + 6)
  {
    hide DeltaKey, MergeActs, PublishesBefore, Program, FramesOf, InputOk;
    var t, job := StartTime(k), LinusJob(x);
    forall m, key, u | 0 <= m < NUM_NODES && PublishesBefore(MergeActs(m, "projects-", k, x.d.projects, t + 2), key, u)
      ensures m < |job.progs| && PublishesBefore(job.progs[m], key, u)
    {
      ProjectsInStage(x, m, k, key, u);
      InProgram(x, m, k, x.degrees, key, u);
    }
    var stage := k + 1;
    forall m, key, u | 0 <= m < NUM_NODES && PublishesBefore(MergeActs(m, "users-", stage, x.d.users, t + 6), key, u)
      ensures m < |job.progs| && PublishesBefore(job.progs[m], key, u)
    {
      UsersInStage(x, m, k, key, u);
      InProgram(x, m, k, x.degrees, key, u);
    }
  }

  lemma ProjectsInStage(x: Input, m: nat, k: nat, key: Key, u: nat)
    requires PublishesBefore(MergeActs(m, "projects-", k, x.d.projects, StartTime(k) + 2), key, u)
    ensures PublishesBefore(StageActs(x, m, k), key, u)
  {
    hide DeltaKey, MergeActs, PublishesBefore, UserActs;
    var t := StartTime(k);
    var merge: seq<Act> := MergeActs(m, "projects-", k, x.d.projects, t + 2);
    var work: Act := Action.Work(t + 5, (l: Local) => l.(pSet := l.pSet + l.found));
    var a := Action.Read(t, DeltaKey("users-", k, 0), false, TakeDelta(x.d.users));
    var b := Action.Read(t + 1, x.d.key, true, TagProjects(x.d.projects));
    BeforeMore(merge, [work], key, u);
    BeforeMore([b], merge + [work], key, u);
    BeforeMore([a], [b] + (merge + [work]), key, u);
    BeforeMore(ProjectActs(x, m, k), UserActs(x, m, k), key, u);
  }

  lemma UsersInStage(x: Input, m: nat, k: nat, key: Key, u: nat)
    requires PublishesBefore(MergeActs(m, "users-", k + 1, x.d.users, StartTime(k) + 6), key, u)
    ensures PublishesBefore(StageActs(x, m, k), key, u)
  {
    hide DeltaKey, MergeActs, PublishesBefore, ProjectActs;
    var t := StartTime(k);
    var merge: seq<Act> := MergeActs(m, "users-", k + 1, x.d.users, t + 6);
    var work: Act := Action.Work(t + 9, (l: Local) => l.(uSet := l.uSet + l.found));
    var a := Action.Read(t + 5, x.d.key, true, TagUsers(x.d.users));
    BeforeMore(merge, [work], key, u);
    BeforeMore([a], merge + [work], key, u);
    BeforeMore(ProjectActs(x, m, k), UserActs(x, m, k), key, u);
  }

  lemma StageServed(x: Input, n: nat, k: nat)
    requires InputOk(x) && k < x.degrees
    ensures Served(LinusJob(x), StageActs(x, n, k))
  {
    hide DeltaKey, MergeActs, PublishesBefore, Program, FramesOf, InputOk, Served, MergeInJob;
    var t, job := StartTime(k), LinusJob(x);
    StageMerges(x, k);
    StageInputs(x, k, t);
    StageInputs(x, k, t + 1);
    StageInputs(x, k, t + 5);
    MergeServed(job, n, "projects-", k, x.d.projects, t + 2);
    MergeServed(job, n, "users-", k + 1, x.d.users, t + 6);
    var a := Action.Read(t, DeltaKey("users-", k, 0), false, TakeDelta(x.d.users));
    var b := Action.Read(t + 1, x.d.key, true, TagProjects(x.d.projects));
    var c: Act := Action.Work(t + 5, (l: Local) => l.(pSet := l.pSet + l.found));
    var d := Action.Read(t + 5, x.d.key, true, TagUsers(x.d.users));
    var e: Act := Action.Work(t + 9, (l: Local) => l.(uSet := l.uSet + l.found));
    ServedOne(job, a, 0);
    ServedOne(job, b, 0);
    ServedOne(job, c, 0);
    ServedOne(job, d, 0);
    ServedOne(job, e, 0);
    var m1: seq<Act> := MergeActs(n, "projects-", k, x.d.projects, t + 2);
    var m2: seq<Act> := MergeActs(n, "users-", k + 1, x.d.users, t + 6);
    ServedMore(job, m1, [c]);
    ServedMore(job, [b], m1 + [c]);
    ServedMore(job, [a], [b] + (m1 + [c]));
    ServedMore(job, m2, [e]);
    ServedMore(job, [d], m2 + [e]);
    ServedMore(job, ProjectActs(x, n, k), UserActs(x, n, k));
  }

  lemma {:induction false} ProgramServed(x: Input, n: nat, k: nat)
    requires InputOk(x) && k <= x.degrees
    ensures Served(LinusJob(x), Program(x, n, k))
  {
    hide DeltaKey, StageActs, FramesOf, InputOk, LinusJob;
    if k > 0 {
      ProgramServed(x, n, k - 1);
      StageServed(x, n, k - 1);
      ServedMore(LinusJob(x), Program(x, n, k - 1), StageActs(x, n, k - 1));
    }
  }

  /**
   Every run without kills ends after a number of moves fixed in advance. It
   can be continued until all nodes have finished, and then they all hold the
   sets of the plain recomputation.
   */
  lemma EveryRunFinds(x: Input, run: seq<System<Local>>)
    requires InputOk(x) && IsQuietRun(LinusJob(x), run)
    ensures |run[0].kv.nodes| == |run[0].clients| == NUM_NODES
    ensures |run| - 1 <= Potential(LinusJob(x), run[0])
    ensures var sys := run[|run| - 1];
            if Finished(LinusJob(x), sys) then
              |sys.clients| == NUM_NODES &&
              forall n | 0 <= n < NUM_NODES ::
                && sys.clients[n].value.pSet == ProjectsAfter(Seen(x.d), x.linus, x.degrees)
                && sys.clients[n].value.uSet == UsersAfter(Seen(x.d), x.linus, x.degrees)
            else exists sys' :: IsQuietRun(LinusJob(x), run + [sys'])
  {
    hide FramesOf, InputOk, Program, Sound, SystemReachable, IsQuietRun, Potential, PublishedBefore, SystemOk, Timed;
    LinusJobSound(x);
    LinusJobTimed(x);
    EveryRunEnds(LinusJob(x), run);
    QuietRunIsRun(LinusJob(x), run);
    var sys := run[|run| - 1];
    ReachableOk(LinusJob(x), sys);
    if Finished(LinusJob(x), sys) {
      forall n | 0 <= n < NUM_NODES
        ensures sys.clients[n].value.pSet == ProjectsAfter(Seen(x.d), x.linus, x.degrees)
        ensures sys.clients[n].value.uSet == UsersAfter(Seen(x.d), x.linus, x.degrees)
      {
        EveryScheduleReaches(x, sys, n);
        ScheduleDoesNotMatter(LinusJob(x), sys, n);
      }
    }
  }

  lemma LinusJobTimed(x: Input)
    requires InputOk(x)
    ensures Timed(LinusJob(x))
  {
    hide FramesOf, InputOk, Program, PublishedBefore, TimesRise;
    forall n | 0 <= n < NUM_NODES ensures TimesRise(LinusJob(x).progs[n]) && Served(LinusJob(x), LinusJob(x).progs[n]) {
      ProgramTimes(x, n, x.degrees);
      ProgramServed(x, n, x.degrees);
    }
  }
}
