/**
 What a store holds: the last value written under each key, where the writes
 of a run are the pairs that loaders store at home and the Puts that are
 served. And what a kill does: it stops the servicer for good.
 */
module KvWrites {
  import opened Params
  import opened Messages
  import opened Layout
  import opened KvProtocol

  /** The steps of a run, one for each pair of neighbouring states. */
  ghost predicate Steps(plan: Plan, run: seq<State>, steps: seq<Step>) {
    && |run| == |steps| + 1
    && forall i | 0 <= i < |steps| :: Enabled(plan, run[i], steps[i]) && run[i + 1] == Apply(plan, run[i], steps[i])
  }

  /** The pair a step writes into the map of node `m`: a Put it serves, or a pair of its own loader homed there. */
  function Written(s: State, st: Step, m: nat): Option<(Key, Blob)>
    requires m < |s.nodes|
  {
    var node := s.nodes[m];
    if st == Serve(m) && node.inbox != [] && node.inbox[0].Put? then Some((node.inbox[0].key, node.inbox[0].value))
    else if st == PutNext(m) && node.app.Publishing? && node.app.todo != [] && node.app.todo[0].0.node == m
      then Some(node.app.todo[0])
    else None
  }

  /** A step writes its pair over whatever was there, and leaves all other keys and nodes alone. */
  lemma StepWrites(plan: Plan, s: State, st: Step, m: nat)
    requires m < |s.nodes| && Enabled(plan, s, st)
    ensures var s', w := Apply(plan, s, st), Written(s, st, m);
            && |s'.nodes| == |s.nodes|
            && forall k ::
                 (k in s'.nodes[m].entries <==> k in s.nodes[m].entries || (w.Some? && w.value.0 == k)) &&
                 (k in s'.nodes[m].entries ==>
                    s'.nodes[m].entries[k] ==
                    if w.Some? && w.value.0 == k then w.value.1 else s.nodes[m].entries[k])
  {
  }

  /** The pairs written into the map of node `m` in a run, in order. */
  function Writes(run: seq<State>, steps: seq<Step>, m: nat): seq<(Key, Blob)>
    requires |run| == |steps| + 1 && forall i | 0 <= i < |run| :: m < |run[i].nodes|
    decreases |steps|
  {
    if steps == [] then []
    else
      var n := |steps| - 1;
      var w := Written(run[n], steps[n], m);
      Writes(run[..n + 1], steps[..n], m) + if w.Some? then [w.value] else []
  }

  /** At the end of a run from empty maps, each map holds what the last write under each key left. */
  lemma {:induction false} LastWriteWins(plan: Plan, run: seq<State>, steps: seq<Step>, m: nat)
    requires Steps(plan, run, steps) && m < |run[0].nodes| && run[0].nodes[m].entries == map[]
    ensures forall i | 0 <= i < |run| :: m < |run[i].nodes|
    ensures run[|steps|].nodes[m].entries == Stored(map[], Writes(run, steps, m))
  {
    hide Written, Apply, Enabled;
    if steps != [] {
      var n := |steps| - 1;
      LastWriteWins(plan, run[..n + 1], steps[..n], m);
      StepWrites(plan, run[n], steps[n], m);
      assert forall i | 0 <= i < n :: run[i] == run[..n + 1][i];
      var before, w := Writes(run[..n + 1], steps[..n], m), Written(run[n], steps[n], m);
      if w.Some? {
        assert (before + [w.value])[..|before|] == before;
      } else {
        assert before + [] == before;
      }
    }
  }

  // ---------- kills ----------

  /** The servicer of node `m` takes a Kill from its inbox. */
  predicate KillServed(s: State, st: Step, m: nat)
    requires m < |s.nodes|
  {
    st == Serve(m) && s.nodes[m].inbox != [] && s.nodes[m].inbox[0].Kill?
  }

  /** Only a served Kill stops a servicer; once stopped it takes nothing from its inbox any more. */
  lemma StepServing(plan: Plan, s: State, st: Step, m: nat)
    requires m < |s.nodes| && Enabled(plan, s, st)
    ensures var s' := Apply(plan, s, st);
            && |s'.nodes| == |s.nodes|
            && (s'.nodes[m].serving <==> s.nodes[m].serving && !KillServed(s, st, m))
            && (!s.nodes[m].serving ==> st != Serve(m) && s.nodes[m].inbox <= s'.nodes[m].inbox)
  {
  }

  lemma {:induction false} StillThere(plan: Plan, run: seq<State>, steps: seq<Step>, m: nat, i: nat)
    requires Steps(plan, run, steps) && m < |run[0].nodes| && i < |run|
    ensures m < |run[i].nodes|
  {
    hide Apply, Enabled;
    if i > 0 {
      StillThere(plan, run, steps, m, i - 1);
      StepServing(plan, run[i - 1], steps[i - 1], m);
    }
  }

  /** In a run that begins with its servicer at work, a node's servicer is at work until a Kill is served, and never again. */
  lemma {:induction false} ServingUntilKilled(plan: Plan, run: seq<State>, steps: seq<Step>, m: nat, j: nat)
    requires Steps(plan, run, steps) && m < |run[0].nodes| && run[0].nodes[m].serving && j < |run|
    ensures forall i | 0 <= i < |run| :: m < |run[i].nodes|
    ensures run[j].nodes[m].serving <==> forall i | 0 <= i < j :: !KillServed(run[i], steps[i], m)
  {
    hide Apply, Enabled, KillServed;
    forall i | 0 <= i < |run| ensures m < |run[i].nodes| {
      StillThere(plan, run, steps, m, i);
    }
    if j > 0 {
      ServingUntilKilled(plan, run, steps, m, j - 1);
      StepServing(plan, run[j - 1], steps[j - 1], m);
    }
  }

  /** What is in the inbox of a killed servicer stays there, whatever is sent to it later. */
  lemma {:induction false} KilledForGood(plan: Plan, run: seq<State>, steps: seq<Step>, m: nat, i: nat, j: nat)
    requires Steps(plan, run, steps) && m < |run[0].nodes| && i <= j < |run|
    requires m < |run[i].nodes| && !run[i].nodes[m].serving
    ensures m < |run[j].nodes| && !run[j].nodes[m].serving
    ensures run[i].nodes[m].inbox <= run[j].nodes[m].inbox
    ensures forall h | i <= h < j :: steps[h] != Serve(m)
  {
    hide Apply, Enabled, KillServed;
    if i < j {
      KilledForGood(plan, run, steps, m, i, j - 1);
      StepServing(plan, run[j - 1], steps[j - 1], m);
    }
  }
}
