/**
 Frames over the protocol: what the loaders put is a publication in the sense
 of the step machine, so whoever is handed a frame's schema can visit the
 chunks homed on its own node without waiting.
 */
module FrameProtocol {
  import opened Params
  import opened Messages
  import opened Text
  import opened Layout
  import opened Wire
  import P = KvProtocol
  import KvSafety
  import KvCausality

  /** A frame to be published under its key, cut into `chunks` chunks. */
  datatype Frame = Frame(types: seq<char>, rows: seq<Row>, chunks: nat)

  function Keys(puts: seq<(Key, Blob)>): seq<Key> {
    seq(|puts|, i requires 0 <= i < |puts| => puts[i].0)
  }

  ghost predicate FramesFit(frames: map<Key, Frame>) {
    && (forall k <- frames :: '\0' !in k.name && k.node < NUM_NODES)
    && (forall k <- frames ::
          FrameFits(frames[k].types, frames[k].rows) && NumChunks(|frames[k].rows|) <= frames[k].chunks)
    && (forall k <- frames, k' <- frames, col, chunk :: k.name != ChunkName(k'.name, col, chunk))
  }

  ghost function PlanOf(frames: map<Key, Frame>): P.Plan
    requires FramesFit(frames)
  {
    map k | k in frames :: Keys(ChunkPuts(k, frames[k].types, frames[k].rows, frames[k].chunks))
  }

  ghost function PutsOf(frames: map<Key, Frame>, k: Key): seq<(Key, Blob)>
    requires FramesFit(frames) && k in frames
  {
    Publication(k, frames[k].types, frames[k].rows, frames[k].chunks)
  }

  /** The keys a frame's plan lists are exactly its chunk keys. */
  lemma PlannedKeys(frames: map<Key, Frame>, k: Key, ck: Key)
    requires FramesFit(frames) && k in frames
    ensures ck in PlanOf(frames)[k] <==>
            exists c, j | 0 <= c < frames[k].chunks && 0 <= j < |frames[k].types| :: ck == ChunkKey(k, j, c)
  {
    hide ChunkName, ChunkPuts, ChunkBlob;
    var f := frames[k];
    var puts := ChunkPuts(k, f.types, f.rows, f.chunks);
    if ck in PlanOf(frames)[k] {
      var i :| 0 <= i < |puts| && puts[i].0 == ck;
      ChunkPutsAre(k, f.types, f.rows, f.chunks, puts[i]);
    }
    forall c, j | 0 <= c < f.chunks && 0 <= j < |f.types| && ck == ChunkKey(k, j, c)
      ensures ck in PlanOf(frames)[k]
    {
      var p := (ck, ChunkBlob(f.types, f.rows, j, c));
      ChunkPutsAre(k, f.types, f.rows, f.chunks, p);
      var i :| 0 <= i < |puts| && puts[i] == p;
      assert PlanOf(frames)[k][i] == ck;
    }
  }

  lemma PlanIsWellFormed(frames: map<Key, Frame>)
    requires FramesFit(frames)
    ensures P.WellFormed(PlanOf(frames))
  {
    hide ChunkPuts, FramesFit, PlanOf;
    var plan := PlanOf(frames);
    PlanKeys(frames);
    forall k: Key, ck: Key | k in plan && ck in plan[k] ensures ck.node < NUM_NODES && ck !in plan {
      ChunkIsNoFrame(frames, k, ck);
    }
  }

  lemma PlanKeys(frames: map<Key, Frame>)
    requires FramesFit(frames)
    ensures PlanOf(frames).Keys == frames.Keys && forall k <- frames :: k.node < NUM_NODES
  {
    hide ChunkPuts, FrameFits, NumChunks, ChunkName;
  }

  lemma ChunkIsNoFrame(frames: map<Key, Frame>, k: Key, ck: Key)
    requires FramesFit(frames) && k in frames && ck in PlanOf(frames)[k]
    ensures ck.node < NUM_NODES && ck !in frames
  {
    hide ChunkName, ChunkPuts, FrameFits, NumChunks, PlanOf;
    PlannedKeys(frames, k, ck);
    var c, j :| 0 <= c < frames[k].chunks && 0 <= j < |frames[k].types| && ck == ChunkKey(k, j, c);
    assert forall k' <- frames :: k'.name != ChunkName(k.name, j, c);
  }

  /** The puts of a loader are a publication: every chunk of the plan in order, then the schema. */
  lemma LoaderPutsArePublication(frames: map<Key, Frame>, k: Key)
    requires FramesFit(frames) && k in frames
    ensures P.PublicationOf(PlanOf(frames), k, PutsOf(frames, k))
  {
    hide ChunkPuts, FrameFits;
    var f := frames[k];
    assert PlanOf(frames)[k] == Keys(ChunkPuts(k, f.types, f.rows, f.chunks));
  }

  /**
   In every reachable state of the system, a node that holds the schema of a
   frame stores every chunk of the frame that is homed on it, so the local
   map's unguarded lookups all succeed.
   */
  lemma LocalChunksArePresent(frames: map<Key, Frame>, s: P.State, n: nat, k: Key, j: nat, c: nat)
    requires FramesFit(frames) && P.Reachable(PlanOf(frames), s)
    requires n < |s.nodes| && k in frames && k in s.nodes[n].held
    requires j < |frames[k].types| && c < frames[k].chunks && HomeOf(k, c) == n
    ensures ChunkKey(k, j, c) in s.nodes[n].entries
  {
    hide ChunkName, ChunkPuts, FrameFits, P.WellFormed;
    PlanIsWellFormed(frames);
    PlannedKeys(frames, k, ChunkKey(k, j, c));
    KvCausality.SchemaHolderHasChunks(PlanOf(frames), s, n, k, ChunkKey(k, j, c));
  }

  // ---------- what the keys stand for ----------

  /** The pair belongs to one of the frames. */
  ghost predicate Planned(frames: map<Key, Frame>, p: (Key, Blob))
    requires FramesFit(frames)
  {
    exists k <- frames :: p in PutsOf(frames, k)
  }

  /** A pair of a frame is its schema or one of its chunks. */
  lemma PairsOf(frames: map<Key, Frame>, k: Key, p: (Key, Blob))
    requires FramesFit(frames) && k in frames
    ensures var f := frames[k];
            p in PutsOf(frames, k) <==>
            || p == (k, EncSchema(Schema(f.types, |f.rows|)))
            || exists c, j | 0 <= c < f.chunks && 0 <= j < |f.types| :: p == (ChunkKey(k, j, c), ChunkBlob(f.types, f.rows, j, c))
  {
    hide ChunkName, ChunkPuts, ChunkBlob, EncSchema, FrameFits, NumChunks;
    var f := frames[k];
    ChunkPutsAre(k, f.types, f.rows, f.chunks, p);
    assert p in PutsOf(frames, k) <==> p in ChunkPuts(k, f.types, f.rows, f.chunks) || p == SchemaPut(k, f.types, |f.rows|);
  }

  /** No key stands for two values, in one frame or across frames. */
  lemma KeysNeverClash(frames: map<Key, Frame>, p: (Key, Blob), q: (Key, Blob))
    requires FramesFit(frames) && Planned(frames, p) && Planned(frames, q) && p.0 == q.0
    ensures p.1 == q.1
  {
    hide ChunkName, ChunkBlob, EncSchema, FrameFits, NumChunks, PutsOf;
    var k :| k in frames && p in PutsOf(frames, k);
    var l :| l in frames && q in PutsOf(frames, l);
    PairsOf(frames, k, p);
    PairsOf(frames, l, q);
    var f, g := frames[k], frames[l];
    if p.0 != k && q.0 != l {
      var c, j :| 0 <= c < f.chunks && 0 <= j < |f.types| && p == (ChunkKey(k, j, c), ChunkBlob(f.types, f.rows, j, c));
      var d, i :| 0 <= d < g.chunks && 0 <= i < |g.types| && q == (ChunkKey(l, i, d), ChunkBlob(g.types, g.rows, i, d));
      if k != l {
        ChunkKeysDiffer(k, j, c, l, i, d);
      } else {
        ChunkNameInjective(k.name, j, c, k.name, i, d);
      }
    }
  }

  // ---------- runs that publish these frames ----------

  /** Every loader publishes one of the frames, with its own contents. */
  ghost predicate FrameStep(frames: map<Key, Frame>, s: P.State, st: P.Step)
    requires FramesFit(frames)
  {
    && P.Enabled(PlanOf(frames), s, st)
    && (st.Publish? ==> st.schema in frames && st.todo == PutsOf(frames, st.schema))
  }

  ghost predicate FrameNext(frames: map<Key, Frame>, s: P.State, s': P.State)
    requires FramesFit(frames)
  {
    exists st :: FrameStep(frames, s, st) && s' == P.Apply(PlanOf(frames), s, st)
  }

  ghost predicate IsFrameRun(frames: map<Key, Frame>, run: seq<P.State>)
    requires FramesFit(frames)
  {
    && |run| > 0
    && P.Init(run[0])
    && forall i | 0 <= i < |run| - 1 :: FrameNext(frames, run[i], run[i + 1])
  }

  ghost predicate FrameReachable(frames: map<Key, Frame>, s: P.State)
    requires FramesFit(frames)
  {
    exists run :: IsFrameRun(frames, run) && run[|run| - 1] == s
  }

  /** All pairs put or about to be put belong to the frames. */
  ghost predicate Content(frames: map<Key, Frame>, s: P.State)
    requires FramesFit(frames)
  {
    && (forall p <- s.puts :: Planned(frames, p))
    && (forall n | 0 <= n < |s.nodes| && s.nodes[n].app.Publishing? ::
          forall p <- s.nodes[n].app.todo :: Planned(frames, p))
  }

  lemma StepContent(frames: map<Key, Frame>, s: P.State, st: P.Step)
    requires FramesFit(frames) && Content(frames, s) && FrameStep(frames, s, st)
    ensures Content(frames, P.Apply(PlanOf(frames), s, st))
  {
    hide FramesFit, PlanOf, PutsOf, Planned;
    var s' := P.Apply(PlanOf(frames), s, st);
    var n := st.n;
    if st.Publish? {
      forall p <- st.todo ensures Planned(frames, p) {
        PlannedBy(frames, st.schema, p);
      }
    }
    if st.PutNext? && s.nodes[n].app.todo != [] {
      assert s.nodes[n].app.todo[0] in s.nodes[n].app.todo;
    }
    forall i | 0 <= i < |s'.nodes| && s'.nodes[i].app.Publishing?
      ensures forall p <- s'.nodes[i].app.todo :: Planned(frames, p)
    {
      assert i != n ==> s'.nodes[i].app == s.nodes[i].app;
    }
  }

  lemma PlannedBy(frames: map<Key, Frame>, k: Key, p: (Key, Blob))
    requires FramesFit(frames) && k in frames && p in PutsOf(frames, k)
    ensures Planned(frames, p)
  {
  }

  lemma {:induction false} FrameRunContent(frames: map<Key, Frame>, run: seq<P.State>)
    requires FramesFit(frames) && IsFrameRun(frames, run)
    ensures P.IsRun(PlanOf(frames), run) && Content(frames, run[|run| - 1])
  {
    hide FramesFit, PlanOf, Planned, P.Enabled, P.Apply;
    if |run| > 1 {
      var prefix := run[..|run| - 1];
      forall i | 0 <= i < |prefix| - 1 ensures FrameNext(frames, prefix[i], prefix[i + 1]) {
        assert FrameNext(frames, run[i], run[i + 1]);
      }
      FrameRunContent(frames, prefix);
      var s, s' := run[|run| - 2], run[|run| - 1];
      assert FrameNext(frames, s, s');
      var st :| FrameStep(frames, s, st) && s' == P.Apply(PlanOf(frames), s, st);
      StepContent(frames, s, st);
      forall i | 0 <= i < |run| - 1 ensures P.Next(PlanOf(frames), run[i], run[i + 1]) {
        if i < |prefix| - 1 {
          assert P.Next(PlanOf(frames), prefix[i], prefix[i + 1]);
        }
      }
    }
  }

  lemma FrameReachableContent(frames: map<Key, Frame>, s: P.State)
    requires FramesFit(frames) && FrameReachable(frames, s)
    ensures P.Reachable(PlanOf(frames), s) && Content(frames, s)
  {
    hide FramesFit, PlanOf, Content;
    var run :| IsFrameRun(frames, run) && run[|run| - 1] == s;
    FrameRunContent(frames, run);
  }

  // ---------- the stores as one map ----------

  /** All that was ever put, as one map. */
  ghost function AllPuts(s: P.State): (all: map<Key, Blob>)
    ensures all.Keys == KvCausality.Issued(s)
    ensures forall k <- all :: (k, all[k]) in s.puts
  {
    map k | k in KvCausality.Issued(s) :: ValuePut(s, k)
  }

  ghost function ValuePut(s: P.State, k: Key): (v: Blob)
    requires k in KvCausality.Issued(s)
    ensures (k, v) in s.puts
  {
    var v :| (k, v) in s.puts;
    v
  }

  /** There is only one value for a key that was put. */
  lemma OnlyValue(frames: map<Key, Frame>, s: P.State, k: Key, v: Blob)
    requires FramesFit(frames) && FrameReachable(frames, s) && (k, v) in s.puts
    ensures k in AllPuts(s) && AllPuts(s)[k] == v
  {
    hide FramesFit, PlanOf, Planned;
    FrameReachableContent(frames, s);
    assert k in KvCausality.Issued(s);
    KeysNeverClash(frames, (k, v), (k, AllPuts(s)[k]));
  }

  /** Whatever an application is handed, and whatever a node stores, is what the one map has under that key. */
  lemma HandedIsStored(frames: map<Key, Frame>, s: P.State, n: nat, k: Key)
    requires FramesFit(frames) && FrameReachable(frames, s) && n < |s.nodes|
    ensures k in s.nodes[n].held ==> k in AllPuts(s) && s.nodes[n].held[k] == AllPuts(s)[k]
    ensures k in s.nodes[n].entries ==> k in AllPuts(s) && s.nodes[n].entries[k] == AllPuts(s)[k]
  {
    hide FramesFit, PlanOf, AllPuts, FrameReachable, P.WellFormed;
    FrameReachableContent(frames, s);
    PlanIsWellFormed(frames);
    KvSafety.ReturnedValueWasPut(PlanOf(frames), s, n, k);
    if k in s.nodes[n].held {
      OnlyValue(frames, s, k, s.nodes[n].held[k]);
    }
    if k in s.nodes[n].entries {
      OnlyValue(frames, s, k, s.nodes[n].entries[k]);
    }
  }

  /** What the one map has under the keys of a frame. */
  lemma StoredContent(frames: map<Key, Frame>, s: P.State, k: Key)
    requires FramesFit(frames) && FrameReachable(frames, s) && k in frames
    ensures var f := frames[k];
            && (k in AllPuts(s) ==> AllPuts(s)[k] == EncSchema(Schema(f.types, |f.rows|)))
            && forall j, c | 0 <= j < |f.types| && 0 <= c < f.chunks && ChunkKey(k, j, c) in AllPuts(s) ::
                 AllPuts(s)[ChunkKey(k, j, c)] == ChunkBlob(f.types, f.rows, j, c)
  {
    hide ChunkName, ChunkBlob, EncSchema, FrameFits, NumChunks, PlanOf, AllPuts, FrameReachable, P.Reachable, PutsOf;
    var f := frames[k];
    FrameReachableContent(frames, s);
    if k in AllPuts(s) {
      var p := (k, EncSchema(Schema(f.types, |f.rows|)));
      PairsOf(frames, k, p);
      PlannedBy(frames, k, p);
      KeysNeverClash(frames, (k, AllPuts(s)[k]), p);
    }
    forall j, c | 0 <= j < |f.types| && 0 <= c < f.chunks && ChunkKey(k, j, c) in AllPuts(s)
      ensures AllPuts(s)[ChunkKey(k, j, c)] == ChunkBlob(f.types, f.rows, j, c)
    {
      var p := (ChunkKey(k, j, c), ChunkBlob(f.types, f.rows, j, c));
      PairsOf(frames, k, p);
      PlannedBy(frames, k, p);
      KeysNeverClash(frames, (p.0, AllPuts(s)[p.0]), p);
    }
  }

  /** Once a frame's schema has been put, the one map holds the whole frame. */
  lemma PublishedFrameIsHeld(frames: map<Key, Frame>, s: P.State, k: Key)
    requires FramesFit(frames) && FrameReachable(frames, s) && k in frames && k in AllPuts(s)
    ensures Holds(AllPuts(s), k, frames[k].types, frames[k].rows)
  {
    hide ChunkName, ChunkBlob, EncSchema, FrameFits, NumChunks, AllPuts, FrameReachable, PlanOf;
    var f := frames[k];
    StoredContent(frames, s, k);
    forall j, c | 0 <= j < |f.types| && 0 <= c < NumChunks(|f.rows|)
      ensures HoldsChunk(AllPuts(s), k, f.types, f.rows, j, c)
    {
      PlannedKeys(frames, k, ChunkKey(k, j, c));
      ChunksArePut(frames, s, k, ChunkKey(k, j, c));
    }
  }

  lemma ChunksArePut(frames: map<Key, Frame>, s: P.State, k: Key, ck: Key)
    requires FramesFit(frames) && FrameReachable(frames, s) && k in frames && k in AllPuts(s)
    requires ck in PlanOf(frames)[k]
    ensures ck in AllPuts(s)
  {
    hide FramesFit, AllPuts, FrameReachable, P.WellFormed, P.Reachable, PlanOf;
    FrameReachableContent(frames, s);
    PlanIsWellFormed(frames);
    PlanKeys(frames);
    KvCausality.StateIsCausal(PlanOf(frames), s);
  }

  /** What a node has fetched of a frame is the frame's own schema and chunks. */
  lemma FetchedIsContent(frames: map<Key, Frame>, s: P.State, n: nat, k: Key, j: nat, c: nat)
    requires FramesFit(frames) && FrameReachable(frames, s) && n < |s.nodes| && k in frames
    requires j < |frames[k].types| && c < frames[k].chunks
    ensures var f, held := frames[k], s.nodes[n].held;
            && (k in held ==> held[k] == EncSchema(Schema(f.types, |f.rows|)))
            && (ChunkKey(k, j, c) in held ==> held[ChunkKey(k, j, c)] == ChunkBlob(f.types, f.rows, j, c))
  {
    hide ChunkName, ChunkBlob, EncSchema, FrameFits, NumChunks, AllPuts, FrameReachable;
    HandedIsStored(frames, s, n, k);
    HandedIsStored(frames, s, n, ChunkKey(k, j, c));
    StoredContent(frames, s, k);
  }
}
