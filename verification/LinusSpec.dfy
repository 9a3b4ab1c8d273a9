/**
 The collaborator search as a specification on sets: who is reached when only
 the changes of each stage are processed, against plain reachability.
 */
module LinusSpec {
  import opened Params
  import opened Arith
  import opened Messages
  import opened Layout
  import opened Wire
  import opened RowObjects

  /** A project and the author of a commit to it. */
  type Commit = (int, int)

  /** A commit relation, and the sizes that bound project and user numbers. */
  datatype Relation = Relation(commits: seq<Commit>, projects: nat, users: nat)

  /** The in-range projects with a commit authored by one of `us`. */
  function Touched(commits: seq<Commit>, us: set<int>, projects: nat): set<int> {
    set i | 0 <= i < |commits| && commits[i].1 in us && 0 <= commits[i].0 < projects :: commits[i].0
  }

  /** The in-range authors of commits to one of `ps`. */
  function Authors(commits: seq<Commit>, ps: set<int>, users: nat): set<int> {
    set i | 0 <= i < |commits| && commits[i].0 in ps && 0 <= commits[i].1 < users :: commits[i].1
  }

  // ---------- the reference: plain recomputation ----------

  function Seed(r: Relation, linus: int): set<int> {
    if 0 <= linus < r.users then {linus} else {}
  }

  /** The projects of Linus and of everybody reached a stage earlier. */
  function ProjectsAfter(r: Relation, linus: int, k: nat): set<int>
    decreases k, 0
  {
    if k == 0 then {} else Touched(r.commits, Seed(r, linus) + UsersAfter(r, linus, k - 1), r.projects)
  }

  /** Everybody who authored a commit to one of those projects. */
  function UsersAfter(r: Relation, linus: int, k: nat): set<int>
    decreases k, 1
  {
    if k == 0 then {} else Authors(r.commits, ProjectsAfter(r, linus, k), r.users)
  }

  /** The users a stage starts from: only those the stage before added. */
  function DeltaAfter(r: Relation, linus: int, k: nat): set<int> {
    if k == 0 then Seed(r, linus) else UsersAfter(r, linus, k) - UsersAfter(r, linus, k - 1)
  }

  // ---------- the changes suffice ----------

  lemma TouchedUnion(commits: seq<Commit>, a: set<int>, b: set<int>, projects: nat)
    ensures Touched(commits, a + b, projects) == Touched(commits, a, projects) + Touched(commits, b, projects)
  {
  }

  lemma AuthorsUnion(commits: seq<Commit>, a: set<int>, b: set<int>, users: nat)
    ensures Authors(commits, a + b, users) == Authors(commits, a, users) + Authors(commits, b, users)
  {
  }

  lemma {:induction false} UsersGrow(r: Relation, linus: int, k: nat)
    ensures UsersAfter(r, linus, k) <= UsersAfter(r, linus, k + 1)
    ensures ProjectsAfter(r, linus, k) <= ProjectsAfter(r, linus, k + 1)
  {
    hide Touched, Authors, Seed;
    if k > 0 {
      UsersGrow(r, linus, k - 1);
      var a, b := Seed(r, linus) + UsersAfter(r, linus, k - 1), Seed(r, linus) + UsersAfter(r, linus, k);
      assert a + b == b;
      TouchedUnion(r.commits, a, b, r.projects);
      var p, q := ProjectsAfter(r, linus, k), ProjectsAfter(r, linus, k + 1);
      assert p + q == q;
      AuthorsUnion(r.commits, p, q, r.users);
    }
  }

  /**
   Adding the projects touched by the last stage's new users, and then the
   authors of the new projects, gives what recomputing from all users gives.
   */
  lemma DeltaSuffices(r: Relation, linus: int, k: nat)
    ensures var delta, p, u := DeltaAfter(r, linus, k), ProjectsAfter(r, linus, k), UsersAfter(r, linus, k);
            var newP := Touched(r.commits, delta, r.projects) - p;
            var newU := Authors(r.commits, newP, r.users) - u;
            && p + newP == ProjectsAfter(r, linus, k + 1)
            && u + newU == UsersAfter(r, linus, k + 1)
            && newU == DeltaAfter(r, linus, k + 1)
  {
    hide Touched, Authors, Seed;
    var delta, p, u := DeltaAfter(r, linus, k), ProjectsAfter(r, linus, k), UsersAfter(r, linus, k);
    var newP := Touched(r.commits, delta, r.projects) - p;
    assert p + newP == ProjectsAfter(r, linus, k + 1) by {
      if k == 0 {
        assert Seed(r, linus) + UsersAfter(r, linus, 0) == delta;
      } else {
        UsersGrow(r, linus, k - 1);
        var before := Seed(r, linus) + UsersAfter(r, linus, k - 1);
        TouchedUnion(r.commits, before, delta, r.projects);
        assert before + delta == Seed(r, linus) + u;
      }
    }
    assert u == Authors(r.commits, p, r.users) by {
      if k == 0 {
        NoAuthors(r.commits, r.users);
      }
    }
    AuthorsUnion(r.commits, p, newP, r.users);
    assert u + (Authors(r.commits, newP, r.users) - u) == UsersAfter(r, linus, k + 1);
  }

  lemma NoAuthors(commits: seq<Commit>, users: nat)
    ensures Authors(commits, {}, users) == {}
  {
  }

  // ---------- reachability ----------

  ghost predicate Authored(r: Relation, u: int, p: int) {
    (p, u) in r.commits
  }

  /** Two users authored commits to a common project. */
  ghost predicate Linked(r: Relation, u: int, v: int) {
    exists p :: 0 <= p < r.projects && Authored(r, u, p) && Authored(r, v, p)
  }

  ghost predicate ReachedIn(r: Relation, linus: int, k: nat, u: int) {
    0 <= u < r.users &&
    if k == 0 then u == linus else exists v :: ReachedIn(r, linus, k - 1, v) && Linked(r, v, u)
  }

  lemma TouchedIs(r: Relation, us: set<int>, p: int)
    ensures p in Touched(r.commits, us, r.projects) <==> 0 <= p < r.projects && exists u <- us :: Authored(r, u, p)
  {
    if p in Touched(r.commits, us, r.projects) {
      var i :| 0 <= i < |r.commits| && r.commits[i].1 in us && r.commits[i].0 == p;
      assert Authored(r, r.commits[i].1, p);
    }
    if u :| u in us && Authored(r, u, p) && 0 <= p < r.projects {
      var i :| 0 <= i < |r.commits| && r.commits[i] == (p, u);
    }
  }

  lemma AuthorsAre(r: Relation, ps: set<int>, u: int)
    ensures u in Authors(r.commits, ps, r.users) <==> 0 <= u < r.users && exists p <- ps :: Authored(r, u, p)
  {
    if u in Authors(r.commits, ps, r.users) {
      var i :| 0 <= i < |r.commits| && r.commits[i].0 in ps && r.commits[i].1 == u;
      assert Authored(r, u, r.commits[i].0);
    }
    if p :| p in ps && Authored(r, u, p) && 0 <= u < r.users {
      var i :| 0 <= i < |r.commits| && r.commits[i] == (p, u);
    }
  }

  lemma OneStage(r: Relation, us: set<int>, u: int)
    ensures u in Authors(r.commits, Touched(r.commits, us, r.projects), r.users) <==>
            0 <= u < r.users && exists v <- us :: Linked(r, v, u)
  {
    hide Touched, Authors, Authored;
    var ps := Touched(r.commits, us, r.projects);
    AuthorsAre(r, ps, u);
    if u in Authors(r.commits, ps, r.users) {
      var p :| p in ps && Authored(r, u, p);
      TouchedIs(r, us, p);
      var v :| v in us && Authored(r, v, p);
      assert Linked(r, v, u);
    }
    if v :| v in us && Linked(r, v, u) && 0 <= u < r.users {
      var p :| 0 <= p < r.projects && Authored(r, v, p) && Authored(r, u, p);
      TouchedIs(r, us, p);
      assert p in ps && Authored(r, u, p);
    }
  }

  /** After k stages exactly the users reached from Linus over k links are tagged. */
  lemma {:induction false} UsersAreReached(r: Relation, linus: int, k: nat, u: int)
    requires k > 0
    ensures u in UsersAfter(r, linus, k) <==> ReachedIn(r, linus, k, u)
  {
    hide Linked, Authors, Touched;
    var us := Seed(r, linus) + UsersAfter(r, linus, k - 1);
    OneStage(r, us, u);
    if k == 1 {
      assert forall v :: v in us <==> ReachedIn(r, linus, 0, v);
    } else {
      var before := UsersAfter(r, linus, k - 1);
      forall v ensures v in before <==> ReachedIn(r, linus, k - 1, v) {
        UsersAreReached(r, linus, k - 1, v);
      }
      if v :| v in Seed(r, linus) && Linked(r, v, u) && 0 <= u < r.users {
        SelfLinked(r, v, u);
        assert ReachedIn(r, linus, 0, v) && ReachedIn(r, linus, 1, u);
        StaysReached(r, linus, 1, k, u);
      }
    }
  }

  lemma SelfLinked(r: Relation, v: int, u: int)
    requires Linked(r, v, u)
    ensures Linked(r, u, u)
  {
  }

  lemma {:induction false} StaysReached(r: Relation, linus: int, j: nat, k: nat, u: int)
    requires 0 < j <= k && ReachedIn(r, linus, j, u)
    ensures ReachedIn(r, linus, k, u)
    decreases k - j
  {
    hide Linked;
    if j < k {
      var v :| ReachedIn(r, linus, j - 1, v) && Linked(r, v, u);
      SelfLinked(r, v, u);
      assert ReachedIn(r, linus, j + 1, u);
      StaysReached(r, linus, j + 1, k, u);
    }
  }

  // ---------- what the nodes are shown ----------

  /** The frame of commits, under its key. */
  datatype Data = Data(rows: seq<Row>, key: Key, projects: nat, users: nat)

  /** Both numbers of the commit are there. */
  predicate IsCommit(r: Row) {
    |r| >= 2 && r[0].Int? && r[1].Int?
  }

  /** The commit a row object shows after the rows: a missing number shows as the one before it, or as 0. */
  function LastShown(rows: seq<Row>): Commit {
    if rows == [] then (0, 0)
    else
      var before, r := LastShown(rows[..|rows| - 1]), rows[|rows| - 1];
      (if |r| >= 1 && r[0].Int? then r[0].i else before.0, if |r| >= 2 && r[1].Int? then r[1].i else before.1)
  }

  /** The commits shown in a pass over the rows. */
  function Shown(rows: seq<Row>): (commits: seq<Commit>)
    ensures |commits| == |rows|
  {
    seq(|rows|, i requires 0 <= i < |rows| => LastShown(rows[..i + 1]))
  }

  /** A frame whose first two columns are numbers. */
  predicate ReadsInts(types: seq<char>) {
    |types| >= 2 && types[0] == 'I' && types[1] == 'I'
  }

  predicate CommitRows(types: seq<char>, rows: seq<Row>)
    ensures CommitRows(types, rows) ==> |types| >= 2 && Rectangular(types, rows)
  {
    ReadsInts(types) && forall i | 0 <= i < |rows| :: RowFits(types, rows[i])
  }

  lemma {:induction false} HeldIsShown(types: seq<char>, rows: seq<Row>)
    requires CommitRows(types, rows)
    ensures var vals := Held(types, rows); vals[0] == Int(LastShown(rows).0) && vals[1] == Int(LastShown(rows).1)
  {
    if rows != [] {
      HeldIsShown(types, rows[..|rows| - 1]);
      var r := rows[|rows| - 1];
      assert CellFits(types[0], r[0]) && CellFits(types[1], r[1]);
    }
  }

  // ---------- the nodes' shares ----------

  /** The commits a local map visits on node `n`. */
  function LocalRows(d: Data, n: nat): seq<Row> {
    LocalPart(d.key, d.rows, n)
  }

  /** The commits node `n` is shown. */
  function LocalCommits(d: Data, n: nat): seq<Commit> {
    Shown(LocalRows(d, n))
  }

  /** The commits the first `m` nodes are shown. */
  function AllShown(d: Data, m: nat): seq<Commit> {
    if m == 0 then [] else AllShown(d, m - 1) + LocalCommits(d, m - 1)
  }

  /** The relation the search is about: every commit as its node is shown it. */
  function Seen(d: Data): Relation {
    Relation(AllShown(d, NUM_NODES), d.projects, d.users)
  }

  lemma LocalRowIsRow(d: Data, n: nat, h: nat) returns (i: nat)
    requires h < |LocalRows(d, n)|
    ensures i < |d.rows| && d.rows[i] == LocalRows(d, n)[h]
  {
    hide LocalIndices, NumChunks;
    var indices := LocalIndices(d.key, |d.rows|, n, NumChunks(|d.rows|));
    i := indices[h];
    ExactPartition(d.key, |d.rows|, n, i);
  }

  lemma RowIsLocalRow(d: Data, i: nat) returns (n: nat, h: nat)
    requires i < |d.rows|
    ensures n < NUM_NODES && h < |LocalRows(d, n)| && LocalRows(d, n)[h] == d.rows[i]
  {
    hide LocalIndices, NumChunks;
    n := HomeOf(d.key, i / CHUNK_SIZE);
    ExactPartition(d.key, |d.rows|, n, i);
    var indices := LocalIndices(d.key, |d.rows|, n, NumChunks(|d.rows|));
    h :| 0 <= h < |indices| && indices[h] == i;
  }

  function UnionOf(sets: seq<set<int>>): set<int> {
    if sets == [] then {} else UnionOf(sets[..|sets| - 1]) + sets[|sets| - 1]
  }

  lemma {:induction false} UnionOfIs(sets: seq<set<int>>, x: int)
    ensures x in UnionOf(sets) <==> exists n | 0 <= n < |sets| :: x in sets[n]
  {
    if sets != [] {
      UnionOfIs(sets[..|sets| - 1], x);
    }
  }

  function TouchedShares(d: Data, us: set<int>, known: set<int>): (shares: seq<set<int>>)
    ensures |shares| == NUM_NODES
  {
    seq(NUM_NODES, n requires 0 <= n < NUM_NODES => Touched(LocalCommits(d, n), us, d.projects) - known)
  }

  function AuthorShares(d: Data, ps: set<int>, known: set<int>): (shares: seq<set<int>>)
    ensures |shares| == NUM_NODES
  {
    seq(NUM_NODES, n requires 0 <= n < NUM_NODES => Authors(LocalCommits(d, n), ps, d.users) - known)
  }

  lemma {:induction false} ShownByANode(d: Data, m: nat, c: Commit)
    ensures c in AllShown(d, m) <==> exists n | 0 <= n < m :: c in LocalCommits(d, n)
  {
    hide LocalCommits;
    if m > 0 {
      ShownByANode(d, m - 1, c);
    }
  }

  /** What the nodes find in their shares adds up to what the whole relation yields. */
  lemma SharesAddUp(d: Data, s: set<int>, known: set<int>)
    ensures UnionOf(TouchedShares(d, s, known)) == Touched(Seen(d).commits, s, d.projects) - known
    ensures UnionOf(AuthorShares(d, s, known)) == Authors(Seen(d).commits, s, d.users) - known
  {
    hide LocalCommits, UnionOf, Touched, Authors;
    forall x ensures x in UnionOf(TouchedShares(d, s, known)) <==> x in Touched(Seen(d).commits, s, d.projects) - known {
      var shares := TouchedShares(d, s, known);
      UnionOfIs(shares, x);
      TouchedShared(d, s, x);
      assert forall n | 0 <= n < NUM_NODES :: shares[n] == Touched(LocalCommits(d, n), s, d.projects) - known;
    }
    forall x ensures x in UnionOf(AuthorShares(d, s, known)) <==> x in Authors(Seen(d).commits, s, d.users) - known {
      var shares := AuthorShares(d, s, known);
      UnionOfIs(shares, x);
      AuthorsShared(d, s, x);
      assert forall n | 0 <= n < NUM_NODES :: shares[n] == Authors(LocalCommits(d, n), s, d.users) - known;
    }
  }

  lemma TouchedShared(d: Data, us: set<int>, p: int)
    ensures p in Touched(Seen(d).commits, us, d.projects) <==>
            exists n | 0 <= n < NUM_NODES :: p in Touched(LocalCommits(d, n), us, d.projects)
  {
    hide LocalCommits, AllShown;
    var commits := Seen(d).commits;
    if p in Touched(commits, us, d.projects) {
      var i :| 0 <= i < |commits| && commits[i].1 in us && commits[i].0 == p;
      ShownByANode(d, NUM_NODES, commits[i]);
      var n :| 0 <= n < NUM_NODES && commits[i] in LocalCommits(d, n);
      assert p in Touched(LocalCommits(d, n), us, d.projects);
    }
    forall n | 0 <= n < NUM_NODES && p in Touched(LocalCommits(d, n), us, d.projects)
      ensures p in Touched(commits, us, d.projects)
    {
      var local := LocalCommits(d, n);
      var h :| 0 <= h < |local| && local[h].1 in us && local[h].0 == p;
      ShownByANode(d, NUM_NODES, local[h]);
    }
  }

  lemma AuthorsShared(d: Data, ps: set<int>, u: int)
    ensures u in Authors(Seen(d).commits, ps, d.users) <==>
            exists n | 0 <= n < NUM_NODES :: u in Authors(LocalCommits(d, n), ps, d.users)
  {
    hide LocalCommits, AllShown;
    var commits := Seen(d).commits;
    if u in Authors(commits, ps, d.users) {
      var i :| 0 <= i < |commits| && commits[i].0 in ps && commits[i].1 == u;
      ShownByANode(d, NUM_NODES, commits[i]);
      var n :| 0 <= n < NUM_NODES && commits[i] in LocalCommits(d, n);
      assert u in Authors(LocalCommits(d, n), ps, d.users);
    }
    forall n | 0 <= n < NUM_NODES && u in Authors(LocalCommits(d, n), ps, d.users)
      ensures u in Authors(commits, ps, d.users)
    {
      var local := LocalCommits(d, n);
      var h :| 0 <= h < |local| && local[h].0 in ps && local[h].1 == u;
      ShownByANode(d, NUM_NODES, local[h]);
    }
  }

  // ---------- missing numbers ----------

  function CommitOf(r: Row): Commit
    requires IsCommit(r)
  {
    (r[0].i, r[1].i)
  }

  /** The commits of the complete rows. */
  function Complete(rows: seq<Row>): seq<Commit> {
    if rows == [] then []
    else
      var r := rows[|rows| - 1];
      Complete(rows[..|rows| - 1]) + if IsCommit(r) then [CommitOf(r)] else []
  }

  lemma {:induction false} CompleteAre(rows: seq<Row>, c: Commit)
    ensures c in Complete(rows) <==> exists i | 0 <= i < |rows| :: IsCommit(rows[i]) && CommitOf(rows[i]) == c
  {
    hide IsCommit;
    if rows != [] {
      CompleteAre(rows[..|rows| - 1], c);
    }
  }

  /** The relation as it stands in the frame. */
  function Plain(d: Data): Relation {
    Relation(Complete(d.rows), d.projects, d.users)
  }

  predicate CanMatter(r: Relation, c: Commit) {
    0 <= c.0 < r.projects && 0 <= c.1 < r.users
  }

  /** What a node is shown of an incomplete row is out of range, or a commit of the frame anyway. */
  predicate StaleIsHarmless(d: Data) {
    forall n, h | 0 <= n < NUM_NODES && 0 <= h < |LocalRows(d, n)| && !IsCommit(LocalRows(d, n)[h]) ::
      CanMatter(Plain(d), LocalCommits(d, n)[h]) ==> LocalCommits(d, n)[h] in Plain(d).commits
  }

  lemma ShownAsIs(rows: seq<Row>, h: nat)
    requires h < |rows| && IsCommit(rows[h])
    ensures Shown(rows)[h] == CommitOf(rows[h])
  {
  }

  /** Complete rows are shown as they are, on the node that has them. */
  lemma PlainIsSeen(d: Data, c: Commit)
    requires c in Plain(d).commits
    ensures c in Seen(d).commits
  {
    hide LocalRows, AllShown, IsCommit, Shown;
    CompleteAre(d.rows, c);
    var i :| 0 <= i < |d.rows| && IsCommit(d.rows[i]) && c == CommitOf(d.rows[i]);
    var n, h := RowIsLocalRow(d, i);
    ShownAsIs(LocalRows(d, n), h);
    assert LocalCommits(d, n)[h] == c;
    ShownByANode(d, NUM_NODES, c);
  }

  /** The nodes are shown the relation of the frame, as far as it is in range, exactly if stale values are harmless. */
  lemma SeenIsPlainIff(d: Data)
    ensures (forall c | CanMatter(Plain(d), c) :: c in Seen(d).commits <==> c in Plain(d).commits) <==> StaleIsHarmless(d)
  {
    hide LocalRows, AllShown, IsCommit, Shown, Complete, CanMatter;
    if StaleIsHarmless(d) {
      forall c | CanMatter(Plain(d), c) ensures c in Seen(d).commits <==> c in Plain(d).commits {
        SeenIsHarmless(d, c);
      }
    }
    if forall c | CanMatter(Plain(d), c) :: c in Seen(d).commits <==> c in Plain(d).commits {
      forall n, h | 0 <= n < NUM_NODES && 0 <= h < |LocalRows(d, n)| && !IsCommit(LocalRows(d, n)[h])
        ensures CanMatter(Plain(d), LocalCommits(d, n)[h]) ==> LocalCommits(d, n)[h] in Plain(d).commits
      {
        var c := LocalCommits(d, n)[h];
        assert c in LocalCommits(d, n);
        ShownByANode(d, NUM_NODES, c);
      }
    }
  }

  lemma SeenIsHarmless(d: Data, c: Commit)
    requires StaleIsHarmless(d) && CanMatter(Plain(d), c)
    ensures c in Seen(d).commits <==> c in Plain(d).commits
  {
    hide LocalRows, AllShown, IsCommit, Shown, Complete, CanMatter;
    if c in Plain(d).commits {
      PlainIsSeen(d, c);
    }
    if c in Seen(d).commits {
      ShownByANode(d, NUM_NODES, c);
      var n :| 0 <= n < NUM_NODES && c in LocalCommits(d, n);
      var h :| 0 <= h < |LocalCommits(d, n)| && LocalCommits(d, n)[h] == c;
      if IsCommit(LocalRows(d, n)[h]) {
        var i := LocalRowIsRow(d, n, h);
        ShownAsIs(LocalRows(d, n), h);
        CompleteAre(d.rows, c);
      }
    }
  }

  /** Only commits in range matter to a stage. */
  lemma SameCommitsSameStage(a: Relation, b: Relation, s: set<int>)
    requires a.projects == b.projects && a.users == b.users
    requires forall c | CanMatter(a, c) :: c in a.commits <==> c in b.commits
    ensures (forall u <- s :: 0 <= u < a.users) ==> Touched(a.commits, s, a.projects) == Touched(b.commits, s, a.projects)
    ensures (forall p <- s :: 0 <= p < a.projects) ==> Authors(a.commits, s, a.users) == Authors(b.commits, s, a.users)
  {
    if forall u <- s :: 0 <= u < a.users {
      forall x ensures x in Touched(a.commits, s, a.projects) <==> x in Touched(b.commits, s, a.projects) {
        assert x in Touched(a.commits, s, a.projects) <==> 0 <= x < a.projects && exists u <- s :: (x, u) in a.commits;
        assert x in Touched(b.commits, s, a.projects) <==> 0 <= x < a.projects && exists u <- s :: (x, u) in b.commits;
      }
    }
    if forall p <- s :: 0 <= p < a.projects {
      forall x ensures x in Authors(a.commits, s, a.users) <==> x in Authors(b.commits, s, a.users) {
        assert x in Authors(a.commits, s, a.users) <==> 0 <= x < a.users && exists p <- s :: (p, x) in a.commits;
        assert x in Authors(b.commits, s, a.users) <==> 0 <= x < a.users && exists p <- s :: (p, x) in b.commits;
      }
    }
  }

  lemma ReachedInRange(r: Relation, linus: int, k: nat)
    ensures forall p <- ProjectsAfter(r, linus, k) :: 0 <= p < r.projects
    ensures forall u <- Seed(r, linus) + UsersAfter(r, linus, k) :: 0 <= u < r.users
  {
  }

  lemma {:induction false} SameCommitsSameSearch(a: Relation, b: Relation, linus: int, k: nat)
    requires a.projects == b.projects && a.users == b.users
    requires forall c | CanMatter(a, c) :: c in a.commits <==> c in b.commits
    ensures ProjectsAfter(a, linus, k) == ProjectsAfter(b, linus, k)
    ensures UsersAfter(a, linus, k) == UsersAfter(b, linus, k)
  {
    hide Touched, Authors, CanMatter;
    if k > 0 {
      SameCommitsSameSearch(a, b, linus, k - 1);
      ReachedInRange(a, linus, k - 1);
      ReachedInRange(a, linus, k);
      SameCommitsSameStage(a, b, Seed(a, linus) + UsersAfter(a, linus, k - 1));
      SameCommitsSameStage(a, b, ProjectsAfter(a, linus, k));
    }
  }

  /** One stage from a user finds a project exactly if there is such a commit. */
  lemma OneStageFinds(r: Relation, c: Commit)
    requires CanMatter(r, c)
    ensures c.0 in ProjectsAfter(r, c.1, 1) <==> c in r.commits
  {
    assert UsersAfter(r, c.1, 0) == {} && Seed(r, c.1) + {} == {c.1};
    if c in r.commits {
      var i :| 0 <= i < |r.commits| && r.commits[i] == c;
    }
  }

  /** The search gives the same from the relation shown as from the relation in the frame. */
  ghost predicate SameSearch(a: Relation, b: Relation) {
    forall linus: int, k: nat ::
      ProjectsAfter(a, linus, k) == ProjectsAfter(b, linus, k) && UsersAfter(a, linus, k) == UsersAfter(b, linus, k)
  }

  /**
   The search is about the relation in the frame, for every user it starts
   from and after every stage, if and only if stale values are harmless.
   */
  lemma SearchIsPlainIff(d: Data)
    ensures SameSearch(Seen(d), Plain(d)) <==> StaleIsHarmless(d)
  {
    hide StaleIsHarmless, AllShown, Complete, ProjectsAfter, UsersAfter;
    SeenIsPlainIff(d);
    if StaleIsHarmless(d) {
      forall linus: int, k: nat
        ensures ProjectsAfter(Seen(d), linus, k) == ProjectsAfter(Plain(d), linus, k)
        ensures UsersAfter(Seen(d), linus, k) == UsersAfter(Plain(d), linus, k)
      {
        SameCommitsSameSearch(Seen(d), Plain(d), linus, k);
      }
    }
    if SameSearch(Seen(d), Plain(d)) {
      forall c | CanMatter(Plain(d), c) ensures c in Seen(d).commits <==> c in Plain(d).commits {
        OneStageFinds(Seen(d), c);
        OneStageFinds(Plain(d), c);
        assert ProjectsAfter(Seen(d), c.1, 1) == ProjectsAfter(Plain(d), c.1, 1);
      }
    }
  }

  /** In particular if no number is missing, whatever the placement. */
  lemma NothingMissing(d: Data)
    requires forall i | 0 <= i < |d.rows| :: IsCommit(d.rows[i])
    ensures SameSearch(Seen(d), Plain(d))
  {
    hide IsCommit, LocalRows, AllShown, SameSearch, CanMatter;
    forall n, h | 0 <= n < NUM_NODES && 0 <= h < |LocalRows(d, n)| ensures IsCommit(LocalRows(d, n)[h]) {
      var i := LocalRowIsRow(d, n, h);
    }
    SearchIsPlainIff(d);
  }

  lemma {:induction false} OnlyRow(rows: seq<Row>, q: int)
    requires rows != [] && forall i | 0 <= i < |rows| :: rows[i] == [Int(q), Missing]
    ensures LastShown(rows) == (q, 0)
  {
    if |rows| > 1 {
      OnlyRow(rows[..|rows| - 1], q);
    }
  }

  /**
   For every number of nodes and chunk size: in a frame of one commit without
   author, the search from user 0 finds the project, though nobody is recorded.
   */
  lemma MissingAuthorIsFound(k: Key, q: int, projects: nat, users: nat)
    requires 0 <= q < projects && users > 0
    ensures var d := Data([[Int(q), Missing]], k, projects, users);
            q in ProjectsAfter(Seen(d), 0, 1) && ProjectsAfter(Plain(d), 0, 1) == {} && !StaleIsHarmless(d)
  {
    hide LocalRows, AllShown, ProjectsAfter, StaleIsHarmless;
    var d := Data([[Int(q), Missing]], k, projects, users);
    var n, h := RowIsLocalRow(d, 0);
    forall i | 0 <= i < |LocalRows(d, n)| ensures LocalRows(d, n)[i] == [Int(q), Missing] {
      var j := LocalRowIsRow(d, n, i);
    }
    OnlyRow(LocalRows(d, n)[..h + 1], q);
    assert LocalCommits(d, n)[h] == (q, 0);
    ShownByANode(d, NUM_NODES, (q, 0));
    OneStageFinds(Seen(d), (q, 0));
    OneStageFinds(Plain(d), (q, 0));
    NoCommits(d);
    SearchIsPlainIff(d);
    assert ProjectsAfter(Seen(d), 0, 1) != ProjectsAfter(Plain(d), 0, 1);
  }

  lemma NoCommits(d: Data)
    requires |d.rows| == 1 && !IsCommit(d.rows[0])
    ensures Plain(d).commits == [] && forall linus: int :: ProjectsAfter(Plain(d), linus, 1) == {}
  {
    assert d.rows[..|d.rows| - 1] == [];
    assert Complete(d.rows) == Complete([]) + [] == [];
    forall linus: int ensures ProjectsAfter(Plain(d), linus, 1) == {} {
      assert Touched([], Seed(Plain(d), linus) + UsersAfter(Plain(d), linus, 0), d.projects) == {};
    }
  }
}
