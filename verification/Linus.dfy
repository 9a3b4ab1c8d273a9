/**
 The collaborator search as the nodes run it: each scans the commits homed on
 it, the changes are merged at node 0 through published frames, and only
 changes are processed in the next stage.
 */
module Linus {
  import opened Params
  import opened Messages
  import opened Text
  import opened Wire
  import opened Layout
  import opened Frames
  import opened RowObjects
  import opened LinusSets
  import opened LinusSpec

  /** Marks the projects of the given users that were not marked before. */
  class ProjectsTagger {
    const uSet: BitSet
    const pSet: BitSet
    const newProjects: BitSet

    constructor (uSet: BitSet, pSet: BitSet, projects: nat)
      ensures this.uSet == uSet && this.pSet == pSet
      ensures fresh(newProjects) && fresh(newProjects.vals) && newProjects.Valid()
      ensures newProjects.vals.Length == projects && newProjects.View() == {}
    {
      this.uSet, this.pSet := uSet, pSet;
      newProjects := new BitSet(projects);
    }

    /** Reads both numbers, missing or not. */
    method Accept(r: Row)
      requires |r| >= 2 && r[0].Int? && r[1].Int? && pSet.Valid() && newProjects.Valid()
      requires pSet.vals.Length == newProjects.vals.Length
      requires uSet != pSet && uSet != newProjects && pSet != newProjects
      requires uSet.vals != pSet.vals && uSet.vals != newProjects.vals && pSet.vals != newProjects.vals
      modifies pSet, pSet.vals, newProjects, newProjects.vals
      ensures pSet.Valid() && newProjects.Valid()
      ensures var found := if r[1].i in uSet.View() && r[0].i !in old(pSet.View()) && 0 <= r[0].i < pSet.vals.Length
                           then {r[0].i} else {};
              pSet.View() == old(pSet.View()) + found && newProjects.View() == old(newProjects.View()) + found
    {
      hide BitSet.View, BitSet.Valid;
      var pid, uid := r[0].i, r[1].i;
      if uSet.Test(uid) {
        if !pSet.Test(pid) {
          pSet.Set(pid);
          newProjects.Set(pid);
        }
      }
    }

    /** Accepts the rows of a map in turn, as its row object shows them. */
    method AcceptAll(visits: seq<(nat, Row)>, types: seq<char>, ghost local: seq<Row>)
      requires CommitRows(types, local)
      requires |visits| == |local| && forall i | 0 <= i < |local| :: visits[i].1 == local[i]
      requires pSet.Valid() && newProjects.Valid() && newProjects.View() == {}
      requires pSet.vals.Length == newProjects.vals.Length
      requires uSet != pSet && uSet != newProjects && pSet != newProjects
      requires uSet.vals != pSet.vals && uSet.vals != newProjects.vals && pSet.vals != newProjects.vals
      modifies pSet, pSet.vals, newProjects, newProjects.vals
      ensures pSet.Valid() && newProjects.Valid()
      ensures newProjects.View() == Touched(Shown(local), uSet.View(), pSet.vals.Length) - old(pSet.View())
      ensures pSet.View() == old(pSet.View()) + newProjects.View()
    {
      hide *;
      ghost var us, projects := uSet.View(), pSet.vals.Length;
      ghost var shown := Shown(local);
      NothingTouched(us, projects);
      NothingShown(local);
      PrefixesFit(types, local);
      var row := new RowObject(types);
      for i := 0 to |visits|
        invariant pSet.Valid() && newProjects.Valid() && uSet.View() == us
        invariant |row.vals| == |row.missing| == |types| && row.vals == Held(types, local[..i])
        invariant newProjects.View() == Touched(shown[..i], us, projects) - old(pSet.View())
        invariant pSet.View() == old(pSet.View()) + newProjects.View()
      {
        TouchedMore(shown, i, us, projects);
        ShownNext(types, local, i);
        row.Fill(visits[i].0, visits[i].1);
        ghost var c := shown[i];
        NewOnly(Touched(shown[..i], us, projects), old(pSet.View()), c.0, c.1 in us && 0 <= c.0 < projects);
        Accept(row.vals);
      }
      assert shown[..|visits|] == shown;
    }
  }

  /** Marks the users who authored commits to the given projects and were not marked before. */
  class UsersTagger {
    const pSet: BitSet
    const uSet: BitSet
    const newUsers: BitSet

    constructor (pSet: BitSet, uSet: BitSet, users: nat)
      ensures this.pSet == pSet && this.uSet == uSet
      ensures fresh(newUsers) && fresh(newUsers.vals) && newUsers.Valid()
      ensures newUsers.vals.Length == users && newUsers.View() == {}
    {
      this.pSet, this.uSet := pSet, uSet;
      newUsers := new BitSet(users);
    }

    /** Reads both numbers, missing or not. */
    method Accept(r: Row)
      requires |r| >= 2 && r[0].Int? && r[1].Int? && uSet.Valid() && newUsers.Valid()
      requires uSet.vals.Length == newUsers.vals.Length
      requires pSet != uSet && pSet != newUsers && uSet != newUsers
      requires pSet.vals != uSet.vals && pSet.vals != newUsers.vals && uSet.vals != newUsers.vals
      modifies uSet, uSet.vals, newUsers, newUsers.vals
      ensures uSet.Valid() && newUsers.Valid()
      ensures var found := if r[0].i in pSet.View() && r[1].i !in old(uSet.View()) && 0 <= r[1].i < uSet.vals.Length
                           then {r[1].i} else {};
              uSet.View() == old(uSet.View()) + found && newUsers.View() == old(newUsers.View()) + found
    {
      hide BitSet.View, BitSet.Valid;
      var pid, uid := r[0].i, r[1].i;
      if pSet.Test(pid) {
        if !uSet.Test(uid) {
          uSet.Set(uid);
          newUsers.Set(uid);
        }
      }
    }

    /** Accepts the rows of a map in turn, as its row object shows them. */
    method AcceptAll(visits: seq<(nat, Row)>, types: seq<char>, ghost local: seq<Row>)
      requires CommitRows(types, local)
      requires |visits| == |local| && forall i | 0 <= i < |local| :: visits[i].1 == local[i]
      requires uSet.Valid() && newUsers.Valid() && newUsers.View() == {}
      requires uSet.vals.Length == newUsers.vals.Length
      requires pSet != uSet && pSet != newUsers && uSet != newUsers
      requires pSet.vals != uSet.vals && pSet.vals != newUsers.vals && uSet.vals != newUsers.vals
      modifies uSet, uSet.vals, newUsers, newUsers.vals
      ensures uSet.Valid() && newUsers.Valid()
      ensures newUsers.View() == Authors(Shown(local), pSet.View(), uSet.vals.Length) - old(uSet.View())
      ensures uSet.View() == old(uSet.View()) + newUsers.View()
    {
      hide *;
      ghost var ps, users := pSet.View(), uSet.vals.Length;
      ghost var shown := Shown(local);
      NothingAuthored(ps, users);
      NothingShown(local);
      PrefixesFit(types, local);
      var row := new RowObject(types);
      for i := 0 to |visits|
        invariant uSet.Valid() && newUsers.Valid() && pSet.View() == ps
        invariant |row.vals| == |row.missing| == |types| && row.vals == Held(types, local[..i])
        invariant newUsers.View() == Authors(shown[..i], ps, users) - old(uSet.View())
        invariant uSet.View() == old(uSet.View()) + newUsers.View()
      {
        AuthorsMore(shown, i, ps, users);
        ShownNext(types, local, i);
        row.Fill(visits[i].0, visits[i].1);
        ghost var c := shown[i];
        NewOnly(Authors(shown[..i], ps, users), old(uSet.View()), c.1, c.0 in ps && 0 <= c.1 < users);
        Accept(row.vals);
      }
      assert shown[..|visits|] == shown;
    }
  }

  lemma TouchedMore(commits: seq<Commit>, i: nat, us: set<int>, projects: nat)
    requires i < |commits|
    ensures Touched(commits[..i + 1], us, projects) ==
            Touched(commits[..i], us, projects) +
            if commits[i].1 in us && 0 <= commits[i].0 < projects then {commits[i].0} else {}
  {
    forall p ensures p in Touched(commits[..i + 1], us, projects) <==>
                     p in Touched(commits[..i], us, projects) ||
                     (commits[i].1 in us && 0 <= commits[i].0 < projects && p == commits[i].0)
    {
      if p in Touched(commits[..i], us, projects) {
        var h :| 0 <= h < i && commits[..i][h].1 in us && commits[..i][h].0 == p;
        assert commits[..i + 1][h] == commits[..i][h];
      }
      assert commits[..i + 1][i] == commits[i];
    }
  }

  lemma AuthorsMore(commits: seq<Commit>, i: nat, ps: set<int>, users: nat)
    requires i < |commits|
    ensures Authors(commits[..i + 1], ps, users) ==
            Authors(commits[..i], ps, users) +
            if commits[i].0 in ps && 0 <= commits[i].1 < users then {commits[i].1} else {}
  {
    forall u ensures u in Authors(commits[..i + 1], ps, users) <==>
                     u in Authors(commits[..i], ps, users) ||
                     (commits[i].0 in ps && 0 <= commits[i].1 < users && u == commits[i].1)
    {
      if u in Authors(commits[..i], ps, users) {
        var h :| 0 <= h < i && commits[..i][h].0 in ps && commits[..i][h].1 == u;
        assert commits[..i + 1][h] == commits[..i][h];
      }
      assert commits[..i + 1][i] == commits[i];
    }
  }

  lemma PrefixesFit(types: seq<char>, rows: seq<Row>)
    requires Rectangular(types, rows)
    ensures forall i | 0 <= i <= |rows| :: Rectangular(types, rows[..i])
  {
  }

  lemma NothingShown(rows: seq<Row>)
    ensures rows[..0] == [] && Shown(rows)[..0] == []
  {
  }

  /** What the row object shows after the next row is the next commit shown. */
  lemma ShownNext(types: seq<char>, rows: seq<Row>, i: nat)
    requires CommitRows(types, rows) && i < |rows|
    ensures |types| == |rows[i]|
    ensures var vals := Held(types, rows[..i + 1]);
            && vals == Over(Held(types, rows[..i]), rows[i])
            && vals[0] == Int(Shown(rows)[i].0) && vals[1] == Int(Shown(rows)[i].1)
  {
    hide CellFits, LastShown;
    HeldNext(types, rows, i);
    HeldIsShown(types, rows[..i + 1]);
  }

  lemma LocalVisits(d: Data, types: seq<char>, n: nat)
    requires FrameFits(types, d.rows) && ReadsInts(types)
    ensures CommitRows(types, LocalRows(d, n))
    ensures var indices := LocalIndices(d.key, |d.rows|, n, NumChunks(|d.rows|));
            InRange(d.rows, indices) ==>
              |Visits(d.rows, indices)| == |LocalRows(d, n)| &&
              forall i | 0 <= i < |indices| :: Visits(d.rows, indices)[i].1 == LocalRows(d, n)[i]
  {
    hide LocalIndices, NumChunks, CellFits;
    forall h | 0 <= h < |LocalRows(d, n)| ensures RowFits(types, LocalRows(d, n)[h]) {
      var i := LocalRowIsRow(d, n, h);
    }
  }

  /** The state of one node: its handle on the commits and its two sets. */
  class LinusNode {
    const me: nat
    const commits: DataFrame
    const pSet: BitSet
    const uSet: BitSet

    constructor (me: nat, commits: DataFrame, projects: nat, users: nat)
      ensures this.me == me && this.commits == commits
      ensures fresh(pSet) && fresh(uSet) && fresh(pSet.vals) && fresh(uSet.vals)
      ensures pSet.Valid() && uSet.Valid() && pSet.View() == uSet.View() == {}
      ensures pSet.vals.Length == projects && uSet.vals.Length == users
      ensures pSet != uSet && pSet.vals != uSet.vals
    {
      this.me, this.commits := me, commits;
      pSet := new BitSet(projects);
      uSet := new BitSet(users);
    }

    ghost function Repr(): set<object> {
      {commits, pSet, pSet.vals, uSet, uSet.vals}
    }

    ghost predicate Valid(d: Data, types: seq<char>)
      reads Repr()
    {
      && ReadsInts(types)
      && commits.InMemory(d.rows) && commits.types == types && commits.key == d.key && commits.me == me
      && pSet.Valid() && uSet.Valid() && pSet != uSet && pSet.vals != uSet.vals
      && pSet.vals.Length == d.projects && uSet.vals.Length == d.users
    }

    /** Marks the projects touched by `delta` in the local commits; returns the newly marked ones. */
    method TagProjects(delta: BitSet, kv: Stores, ghost d: Data, ghost types: seq<char>) returns (found: BitSet)
      requires Valid(d, types) && Holds(kv.entries, d.key, types, d.rows)
      requires delta !in Repr() && delta.vals !in Repr()
      modifies Repr()
      ensures Valid(d, types) && uSet.View() == old(uSet.View()) && kv.entries == old(kv.entries)
      ensures fresh(found) && fresh(found.vals) && found.Valid() && found.vals.Length == d.projects
      ensures found.View() == Touched(LocalCommits(d, me), delta.View(), d.projects) - old(pSet.View())
      ensures pSet.View() == old(pSet.View()) + found.View()
    {
      hide LocalRows, Holds, Touched, NumChunks, LocalIndices;
      var tagger := new ProjectsTagger(delta, pSet, pSet.vals.Length);
      found := tagger.newProjects;
      var visits := commits.LocalMap(kv, d.rows);
      LocalVisits(d, types, me);
      tagger.AcceptAll(visits, commits.types, LocalRows(d, me));
    }

    method TagUsers(projects: BitSet, kv: Stores, ghost d: Data, ghost types: seq<char>) returns (found: BitSet)
      requires Valid(d, types) && Holds(kv.entries, d.key, types, d.rows)
      requires projects !in Repr() && projects.vals !in Repr()
      modifies Repr()
      ensures Valid(d, types) && pSet.View() == old(pSet.View()) && kv.entries == old(kv.entries)
      ensures fresh(found) && fresh(found.vals) && found.Valid() && found.vals.Length == d.users
      ensures found.View() == Authors(LocalCommits(d, me), projects.View(), d.users) - old(uSet.View())
      ensures uSet.View() == old(uSet.View()) + found.View()
    {
      hide LocalRows, Holds, Authors, NumChunks, LocalIndices;
      var tagger := new UsersTagger(projects, uSet, uSet.vals.Length);
      found := tagger.newUsers;
      var visits := commits.LocalMap(kv, d.rows);
      LocalVisits(d, types, me);
      tagger.AcceptAll(visits, commits.types, LocalRows(d, me));
    }

    /** Adds merged new projects, some of which were marked here already. */
    method AddProjects(merged: BitSet, ghost d: Data, ghost types: seq<char>,
                       ghost p: set<int>, ghost had: set<int>, ghost all: set<int>)
      requires Valid(d, types) && merged.Valid() && merged.View() == all && merged.vals.Length == d.projects
      requires merged !in Repr() && merged.vals !in Repr()
      requires had <= all && pSet.View() == p + had
      modifies Repr()
      ensures Valid(d, types) && uSet.View() == old(uSet.View()) && pSet.View() == p + all
    {
      hide BitSet.View, BitSet.Valid, Below;
      BelowAll(all, d.projects);
      pSet.Union(merged);
    }

    method AddUsers(merged: BitSet, ghost d: Data, ghost types: seq<char>,
                    ghost u: set<int>, ghost had: set<int>, ghost all: set<int>)
      requires Valid(d, types) && merged.Valid() && merged.View() == all && merged.vals.Length == d.users
      requires merged !in Repr() && merged.vals !in Repr()
      requires had <= all && uSet.View() == u + had
      modifies Repr()
      ensures Valid(d, types) && pSet.View() == old(pSet.View()) && uSet.View() == u + all
    {
      hide BitSet.View, BitSet.Valid, Below;
      BelowAll(all, d.users);
      uSet.Union(merged);
    }
  }

  /** Marking `x` if it is hit and unmarked keeps "new" the hits that were not known before. */
  lemma NewOnly(hits: set<int>, known: set<int>, x: int, hit: bool)
    ensures var marked := known + (hits - known);
            var add := if hit && x !in marked then {x} else {};
            && (hits - known) + add == (hits + if hit then {x} else {}) - known
            && marked + add == known + ((hits - known) + add)
  {
  }

  lemma NothingTouched(us: set<int>, projects: nat)
    ensures Touched([], us, projects) == {}
  {
  }

  lemma NothingAuthored(ps: set<int>, users: nat)
    ensures Authors([], ps, users) == {}
  {
  }
}
