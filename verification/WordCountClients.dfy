/** The word count as a job for the step machine: node 0 ends with the same map in every interleaving. */
module WordCountClients {
  import opened Params
  import opened Messages
  import opened Text
  import opened Wire
  import opened Layout
  import opened FrameProtocol
  import opened FrameReads
  import opened Clients
  import opened ClientRuns
  import opened WordCountSpec
  import opened WordCount

  /** A node's own counts, and at node 0 the merged ones. */
  datatype Local = Local(tally: map<string, int>, merged: map<string, int>)

  type Act = Action<Local>

  /** The words, and the order in which each node writes out a map of counts: it follows the node's insertions. */
  datatype Input = Input(words: seq<string>, listing: (nat, map<string, int>) -> seq<Row>)

  ghost predicate InputOk(x: Input) {
    && |x.words| < INT_LIMIT && FrameFits("S", WordRows(x.words))
    && forall n: nat, t :: Lists(x.listing(n, t), t)
  }

  function Start(): Local { Local(map[], map[]) }

  function CountLocal(): (Local, seq<Row>) -> Local {
    (l: Local, rows: seq<Row>) => l.(tally := Tally(FirstWords(rows)))
  }

  function MergeIn(): (Local, seq<Row>) -> Local {
    (l: Local, rows: seq<Row>) => l.(merged := BumpAll(l.merged, WordSet(FirstWords(rows))))
  }

  function GiveCounts(x: Input, n: nat): Local -> seq<Row> {
    (l: Local) => x.listing(n, l.tally)
  }

  function GiveWords(x: Input): Local -> seq<Row> {
    (l: Local) => WordRows(x.words)
  }

  /** Node 0 reads the counts of the first `m` nodes. */
  function Gather(m: nat): (acts: seq<Act>)
    ensures |acts| == m
  {
    if m == 0 then [] else Gather(m - 1) + [Read(3, CountKey(m - 1), false, MergeIn())]
  }

  function CountActs(x: Input, n: nat): seq<Act> {
    [Read(1, DataKey(), true, CountLocal())] + [Publish(2, CountKey(n), "SI", GiveCounts(x, n), NumChunks)]
  }

  function Program(x: Input, n: nat): seq<Act> {
    if n == 0 then
      [Publish(0, DataKey(), "S", GiveWords(x), NumChunks)] + (CountActs(x, n) + Gather(NUM_NODES))
    else CountActs(x, n)
  }

  // ---------- the frames ----------

  function TallyOf(x: Input, n: nat): map<string, int> {
    Tally(LocalWords(DataKey(), x.words, n))
  }

  function DataFrameOf(x: Input): Frame {
    Frame("S", WordRows(x.words), NumChunks(|WordRows(x.words)|))
  }

  function CountFrame(x: Input, n: nat): Frame {
    Frame("SI", x.listing(n, TallyOf(x, n)), NumChunks(|x.listing(n, TallyOf(x, n))|))
  }

  /** The frames that the nodes below `n` publish. */
  ghost function CountFrames(x: Input, n: nat): map<Key, Frame> {
    if n == 0 then map[] else CountFrames(x, n - 1)[CountKey(n - 1) := CountFrame(x, n - 1)]
  }

  lemma {:induction false} CountFramesAre(x: Input, n: nat)
    ensures forall i | 0 <= i < n :: CountKey(i) in CountFrames(x, n) && CountFrames(x, n)[CountKey(i)] == CountFrame(x, i)
    ensures forall k <- CountFrames(x, n) :: exists i | 0 <= i < n :: k == CountKey(i)
  {
    hide CountKey, CountFrame;
    KeysDiffer();
    if n > 0 {
      CountFramesAre(x, n - 1);
    }
  }

  lemma KeysDiffer()
    ensures forall m, n | CountKey(m) == CountKey(n) :: m == n
    ensures forall n :: CountKey(n) != DataKey()
  {
    hide CountName, DataKey;
    forall m, n | CountKey(m) == CountKey(n) ensures m == n {
      if m != n {
        CountNamesDiffer(m, n);
      }
    }
    forall n ensures CountKey(n) != DataKey() {
      DataIsNeither(n, "", 0, 0);
    }
  }

  ghost function FramesOf(x: Input): (frames: map<Key, Frame>)
    ensures DataKey() in frames && frames[DataKey()] == DataFrameOf(x)
    ensures forall n | 0 <= n < NUM_NODES :: CountKey(n) in frames && frames[CountKey(n)] == CountFrame(x, n)
    ensures forall k <- frames :: k == DataKey() || exists n | 0 <= n < NUM_NODES :: k == CountKey(n)
  {
    KeysDiffer();
    CountFramesAre(x, NUM_NODES);
    CountFrames(x, NUM_NODES)[DataKey() := DataFrameOf(x)]
  }

  /** A listing of counts fits a frame. */
  lemma CountFrameFits(x: Input, n: nat)
    requires InputOk(x)
    ensures FrameFits("SI", x.listing(n, TallyOf(x, n)))
  {
    hide Tally, LocalIndices, NumChunks;
    var words := LocalWords(DataKey(), x.words, n);
    var t, rows := Tally(words), x.listing(n, TallyOf(x, n));
    assert Lists(rows, t);
    LocalWordsFit(x.words, n);
    TallyBounds(words);
    TallyKeys(words);
    ListingSize(rows, t);
    forall i | 0 <= i < |rows| ensures RowFits("SI", rows[i]) {
      var w := FirstWords(rows)[i];
      assert w in t && rows[i] == [Str(w), Int(t[w])];
      assert w in words;
    }
  }

  lemma {:induction false} ListingSize(rows: seq<Row>, t: map<string, int>)
    requires Lists(rows, t)
    ensures |rows| == |t|
  {
    var words := FirstWords(rows);
    DistinctWords(words);
    assert (set w | w in words) == t.Keys;
  }

  lemma {:induction false} DistinctWords(words: seq<string>)
    requires forall i, j | 0 <= i < j < |words| :: words[i] != words[j]
    ensures |set w | w in words| == |words|
  {
    if words != [] {
      var before, w := words[..|words| - 1], words[|words| - 1];
      DistinctWords(before);
      assert words == before + [w];
      assert (set x | x in words) == (set x | x in before) + {w};
    }
  }

  lemma WordFramesFit(x: Input)
    requires InputOk(x)
    ensures FramesFit(FramesOf(x))
  {
    hide FrameFits, ChunkName, NumChunks, CountName, Lists, DataKey, WordRows, Tally;
    var frames := FramesOf(x);
    forall k <- frames
      ensures '\0' !in k.name && k.node < NUM_NODES
      ensures FrameFits(frames[k].types, frames[k].rows) && NumChunks(|frames[k].rows|) <= frames[k].chunks
    {
      if k == DataKey() {
        NoNuls(0);
        DataNode();
      } else {
        var n :| 0 <= n < NUM_NODES && k == CountKey(n);
        NoNuls(n);
        CountFrameFits(x, n);
      }
    }
    forall k <- frames, k' <- frames, col, chunk ensures k.name != ChunkName(k'.name, col, chunk) {
      if k == DataKey() {
        DataIsNeither(0, k'.name, col, chunk);
      } else {
        var n :| 0 <= n < NUM_NODES && k == CountKey(n);
        CountIsNoChunk(n, k'.name, col, chunk);
      }
    }
  }

  lemma DataNode()
    ensures DataKey().node < NUM_NODES
  {
  }

  // ---------- what the nodes compute ----------

  lemma NoActs(frames: map<Key, Frame>, n: nat, l: Local)
    ensures SoundAll(frames, n, l, []) && DoAll(frames, n, l, []) == l
  {
  }

  /** The rows of a node's share hold its words. */
  lemma LocalRowsAre(x: Input, n: nat)
    ensures FirstWords(LocalPart(DataKey(), WordRows(x.words), n)) == LocalWords(DataKey(), x.words, n)
  {
    hide LocalIndices, NumChunks;
    var indices := LocalIndices(DataKey(), |x.words|, n, NumChunks(|x.words|));
    forall i | 0 <= i < |indices|
      ensures FirstWords(LocalPart(DataKey(), WordRows(x.words), n))[i] == LocalWords(DataKey(), x.words, n)[i]
    {
      ExactPartition(DataKey(), |x.words|, n, indices[i]);
      assert indices[i] in indices;
    }
  }

  lemma CountReaches(x: Input, n: nat)
    requires InputOk(x) && n < NUM_NODES
    ensures SoundAll(FramesOf(x), n, Start(), CountActs(x, n))
    ensures DoAll(FramesOf(x), n, Start(), CountActs(x, n)) == Start().(tally := TallyOf(x, n))
  {
    hide SoundAll, DoAll, FramesOf, Tally, LocalPart, LocalWords, NumChunks, CountKey, DataKey;
    var frames := FramesOf(x);
    var a := Action.Read(1, DataKey(), true, CountLocal());
    var b: Act := Action.Publish(2, CountKey(n), "SI", GiveCounts(x, n), NumChunks);
    LocalRowsAre(x, n);
    DoOne(frames, n, Start(), a);
    DoOne(frames, n, Start().(tally := TallyOf(x, n)), b);
    InSequence(frames, n, Start(), [a], [b]);
  }

  /** The tallies of the first `m` nodes. */
  function FirstTallies(x: Input, m: nat): (tallies: seq<map<string, int>>)
    ensures |tallies| == m
  {
    seq(m, n requires 0 <= n < m => TallyOf(x, n))
  }

  lemma MergesOne(x: Input, l: Local, m: nat)
    requires InputOk(x) && m < NUM_NODES && l.merged == Merged(FirstTallies(x, m))
    ensures MergeIn()(l, CountFrame(x, m).rows) == l.(merged := Merged(FirstTallies(x, m + 1)))
  {
    hide Tally, BumpAll, Lists, FirstWords, WordSet;
    assert Lists(x.listing(m, TallyOf(x, m)), TallyOf(x, m));
    ListedWords(x.listing(m, TallyOf(x, m)), TallyOf(x, m));
    assert FirstTallies(x, m + 1)[..m] == FirstTallies(x, m);
  }

  lemma {:induction false} GatherReaches(x: Input, l: Local, m: nat)
    requires InputOk(x) && m <= NUM_NODES && l.merged == map[]
    ensures SoundAll(FramesOf(x), 0, l, Gather(m))
    ensures DoAll(FramesOf(x), 0, l, Gather(m)) == l.(merged := Merged(FirstTallies(x, m)))
  {
    hide SoundAll, DoAll, FramesOf, TallyOf, CountKey, CountFrame, MergeIn, InputOk;
    if m == 0 {
      NoActs(FramesOf(x), 0, l);
    } else {
      GatherReaches(x, l, m - 1);
      var a := Action.Read(3, CountKey(m - 1), false, MergeIn());
      var l1 := l.(merged := Merged(FirstTallies(x, m - 1)));
      MergesOne(x, l1, m - 1);
      DoOne(FramesOf(x), 0, l1, a);
      InSequence(FramesOf(x), 0, l, Gather(m - 1), [a]);
    }
  }

  lemma ProgramReaches(x: Input, n: nat)
    requires InputOk(x) && n < NUM_NODES
    ensures SoundAll(FramesOf(x), n, Start(), Program(x, n))
    ensures var l := DoAll(FramesOf(x), n, Start(), Program(x, n));
            && l.tally == TallyOf(x, n)
            && (n == 0 ==> l.merged == Merged(FirstTallies(x, NUM_NODES)))
  {
    hide SoundAll, DoAll, FramesOf, Tally, CountActs, Gather, Merged, InputOk, DataKey, NumChunks;
    CountReaches(x, n);
    if n == 0 {
      var frames := FramesOf(x);
      var a: Act := Action.Publish(0, DataKey(), "S", GiveWords(x), NumChunks);
      DoOne(frames, 0, Start(), a);
      GatherReaches(x, Start().(tally := TallyOf(x, 0)), NUM_NODES);
      InSequence(frames, 0, Start(), CountActs(x, 0), Gather(NUM_NODES));
      InSequence(frames, 0, Start(), [a], CountActs(x, 0) + Gather(NUM_NODES));
    }
  }

  // ---------- own frames first, and times ----------

  predicate NoneOwn(acts: seq<Act>, n: nat, own: set<Key>) {
    forall i | 0 <= i < |acts| && acts[i].Read? && acts[i].key.node == n :: acts[i].key in own
  }

  lemma {:induction false} GatherActs(m: nat)
    ensures NoneOwn(Gather(m), 0, {CountKey(0)}) && TimesWithin(Gather(m), 3, 3)
  {
    hide CountName;
    if m > 0 {
      GatherActs(m - 1);
    }
  }

  lemma ProgramOwnFirst(x: Input, n: nat)
    ensures OwnFirst(Program(x, n), n)
  {
    hide CountName, Gather, NumChunks;
    if n == 0 {
      var a: Act := Action.Publish(0, DataKey(), "S", GiveWords(x), NumChunks);
      var acts := CountActs(x, 0);
      assert [a][0] == a && acts[1].key == CountKey(0);
      GatherActs(NUM_NODES);
      OwnFirstMore([a], acts, 0);
      PublishesMore([a], acts, CountKey(0));
      OwnFirstMore([a] + acts, Gather(NUM_NODES), 0);
      assert [a] + (acts + Gather(NUM_NODES)) == ([a] + acts) + Gather(NUM_NODES);
    }
  }

  lemma ProgramTimes(x: Input, n: nat)
    ensures TimesWithin(Program(x, n), 0, 3)
  {
    hide CountKey, Gather, DataKey, NumChunks;
    if n == 0 {
      var a: seq<Act> := [Action.Publish(0, DataKey(), "S", GiveWords(x), NumChunks)];
      GatherActs(NUM_NODES);
      TimesMore(CountActs(x, 0), Gather(NUM_NODES), 1, 2, 3, 3);
      TimesMore(a, CountActs(x, 0) + Gather(NUM_NODES), 0, 0, 1, 3);
    }
  }

  ghost function WordJob(x: Input): (job: Job<Local>)
    requires InputOk(x)
    ensures |job.progs| == |job.inits| == NUM_NODES && FramesFit(job.frames)
  {
    WordFramesFit(x);
    Job(FramesOf(x), seq(NUM_NODES, n requires 0 <= n < NUM_NODES => Program(x, n)), seq(NUM_NODES, n => Start()))
  }

  lemma WordJobSound(x: Input)
    requires InputOk(x)
    ensures Sound(WordJob(x))
  {
    hide FramesOf, InputOk, Program, SoundAll, OwnFirst;
    forall n | 0 <= n < NUM_NODES ensures SoundAll(FramesOf(x), n, Start(), Program(x, n)) && OwnFirst(Program(x, n), n) {
      ProgramReaches(x, n);
      ProgramOwnFirst(x, n);
    }
  }

  lemma DataPublished(x: Input)
    requires InputOk(x)
    ensures PublishesBefore(WordJob(x).progs[0], DataKey(), 1)
  {
    hide CountActs, Gather, FramesOf, DataKey, NumChunks, InputOk;
    var a: Act := Action.Publish(0, DataKey(), "S", GiveWords(x), NumChunks);
    assert [a][0] == a;
    BeforeMore([a], CountActs(x, 0) + Gather(NUM_NODES), DataKey(), 1);
  }

  lemma CountsPublished(x: Input, n: nat)
    requires InputOk(x) && n < NUM_NODES
    ensures PublishesBefore(WordJob(x).progs[n], CountKey(n), 3)
  {
    hide Gather, FramesOf, DataKey, CountKey, NumChunks, InputOk;
    var acts := CountActs(x, n);
    assert acts[1].key == CountKey(n) && acts[1].time == 2;
    if n == 0 {
      var a: Act := Action.Publish(0, DataKey(), "S", GiveWords(x), NumChunks);
      BeforeMore(acts, Gather(NUM_NODES), CountKey(0), 3);
      BeforeMore([a], acts + Gather(NUM_NODES), CountKey(0), 3);
    }
  }

  lemma {:induction false} GatherServed(x: Input, m: nat)
    requires InputOk(x) && m <= NUM_NODES
    ensures Served(WordJob(x), Gather(m))
  {
    hide FramesOf, CountKey, WordJob, InputOk;
    if m > 0 {
      GatherServed(x, m - 1);
      CountsPublished(x, m - 1);
      var a := Action.Read(3, CountKey(m - 1), false, MergeIn());
      ServedOne(WordJob(x), a, m - 1);
      ServedMore(WordJob(x), Gather(m - 1), [a]);
    }
  }

  lemma ProgramServed(x: Input, n: nat)
    requires InputOk(x) && n < NUM_NODES
    ensures Served(WordJob(x), Program(x, n))
  {
    hide FramesOf, CountKey, DataKey, WordJob, InputOk, Gather, NumChunks, PublishesBefore, Served;
    var job := WordJob(x);
    DataPublished(x);
    var a := Action.Read(1, DataKey(), true, CountLocal());
    var b: Act := Action.Publish(2, CountKey(n), "SI", GiveCounts(x, n), NumChunks);
    ServedOne(job, a, 0);
    ServedOne(job, b, 0);
    ServedMore(job, [a], [b]);
    if n == 0 {
      var c: Act := Action.Publish(0, DataKey(), "S", GiveWords(x), NumChunks);
      ServedOne(job, c, 0);
      GatherServed(x, NUM_NODES);
      ServedMore(job, CountActs(x, 0), Gather(NUM_NODES));
      ServedMore(job, [c], CountActs(x, 0) + Gather(NUM_NODES));
    }
  }

  // ---------- the theorems ----------

  /**
   In every interleaving node 0 ends with exactly the words of the frame, each
   with the number of nodes that saw it.
   */
  lemma EveryScheduleCounts(x: Input, sys: System<Local>)
    requires InputOk(x) && SystemReachable(WordJob(x), sys)
    ensures 0 < |sys.clients|
    ensures sys.clients[0].pc == |WordJob(x).progs[0]| ==>
              var merged := sys.clients[0].value.merged;
              && merged.Keys == (set w | w in x.words)
              && forall w <- x.words ::
                   merged[w] == |set n: nat | n < NUM_NODES && w in LocalWords(DataKey(), x.words, n)|
  {
    hide FramesOf, InputOk, Program, Sound, SystemReachable, DoAll, Merged, Tally, LocalWords;
    WordJobSound(x);
    ScheduleDoesNotMatter(WordJob(x), sys, 0);
    ProgramReaches(x, 0);
    var prog := WordJob(x).progs[0];
    assert prog[..|prog|] == prog;
    MergedIs(x);
  }

  lemma MergedIs(x: Input)
    ensures Merged(FirstTallies(x, NUM_NODES)).Keys == (set w | w in x.words)
    ensures forall w <- x.words :: Merged(FirstTallies(x, NUM_NODES))[w] ==
                                   |set n: nat | n < NUM_NODES && w in LocalWords(DataKey(), x.words, n)|
  {
    hide Merged, Tally, NumChunks, DataKey, WordsOfNode;
    var shares := Shares(DataKey(), x.words, NumChunks(|x.words|));
    assert FirstTallies(x, NUM_NODES) == Tallies(shares);
    forall w ensures w in Merged(Tallies(shares)) <==> w in x.words {
      MergedKeysAreWords(DataKey(), x.words, w);
    }
    forall w <- x.words ensures Merged(Tallies(shares))[w] ==
                                |set n: nat | n < NUM_NODES && w in LocalWords(DataKey(), x.words, n)| {
      MergedCountsHolders(Tallies(shares), w);
      MergedKeysAreWords(DataKey(), x.words, w);
      HoldersAre(x.words, w);
    }
  }

  /**
   Every run without kills ends after a number of moves fixed in advance, can
   be continued until all nodes have finished, and leaves node 0 with the
   words, each with the number of nodes that saw it.
   */
  lemma EveryRunCounts(x: Input, run: seq<System<Local>>)
    requires InputOk(x) && IsQuietRun(WordJob(x), run)
    ensures |run[0].kv.nodes| == |run[0].clients| == NUM_NODES
    ensures |run| - 1 <= Potential(WordJob(x), run[0])
    ensures var sys := run[|run| - 1];
            if Finished(WordJob(x), sys) then
              && |sys.clients| == NUM_NODES
              && sys.clients[0].value.merged.Keys == (set w | w in x.words)
              && forall w <- x.words ::
                   sys.clients[0].value.merged[w] ==
                   |set n: nat | n < NUM_NODES && w in LocalWords(DataKey(), x.words, n)|
            else exists sys' :: IsQuietRun(WordJob(x), run + [sys'])
  {
    hide FramesOf, InputOk, Program, Sound, SystemReachable, IsQuietRun, Potential, PublishedBefore, SystemOk, Timed;
    WordJobSound(x);
    WordJobTimed(x);
    EveryRunEnds(WordJob(x), run);
    QuietRunIsRun(WordJob(x), run);
    var sys := run[|run| - 1];
    ReachableOk(WordJob(x), sys);
    if Finished(WordJob(x), sys) {
      EveryScheduleCounts(x, sys);
      ScheduleDoesNotMatter(WordJob(x), sys, 0);
    }
  }

  lemma WordJobTimed(x: Input)
    requires InputOk(x)
    ensures Timed(WordJob(x))
  {
    hide FramesOf, InputOk, Program, PublishedBefore, TimesRise;
    forall n | 0 <= n < NUM_NODES ensures TimesRise(WordJob(x).progs[n]) && Served(WordJob(x), WordJob(x).progs[n]) {
      ProgramTimes(x, n);
      ProgramServed(x, n);
    }
  }
}
