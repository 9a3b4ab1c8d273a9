/**
 The parallel map over the rows of a local frame. Every thread fills its rows
 into a row object of its own, so its visitor may be shown other values behind
 missing marks than the sequential map would show.
 */
module ParallelMap {
  import opened Messages
  import opened Layout
  import opened RowObjects

  const MIN_NROWS_PER_THREAD: nat := 500000
  const MAX_NUM_THREADS: nat := 8

  /** Visiting rows in order: what the views leave in a rower. */
  function Fold<S, V>(accept: (S, V) -> S, s: S, views: seq<V>): S {
    if views == [] then s else accept(Fold(accept, s, views[..|views| - 1]), views[|views| - 1])
  }

  /**
   What a rower must keep to for `pmap`: its clones start from `unit`, joining
   a fresh clone changes nothing, joins are associative, and accepting a row
   is joining a clone that accepted just that row. Joins need not commute.
   */
  ghost predicate Lawful<S(!new), V(!new)>(accept: (S, V) -> S, join: (S, S) -> S, unit: S) {
    && (forall a :: join(a, unit) == a)
    && (forall a, b, c :: join(join(a, b), c) == join(a, join(b, c)))
    && (forall a, v :: accept(a, v) == join(a, accept(unit, v)))
  }

  lemma {:induction false} FoldFromJoin<S(!new), V(!new)>(accept: (S, V) -> S, join: (S, S) -> S, unit: S,
                                                         a: S, b: S, views: seq<V>)
    requires Lawful(accept, join, unit)
    ensures Fold(accept, join(a, b), views) == join(a, Fold(accept, b, views))
  {
    if views != [] {
      var before, v := views[..|views| - 1], views[|views| - 1];
      FoldFromJoin(accept, join, unit, a, b, before);
      var x := Fold(accept, b, before);
      assert accept(join(a, x), v) == join(join(a, x), accept(unit, v)) == join(a, accept(x, v));
    }
  }

  lemma {:induction false} FoldSplit<S, V>(accept: (S, V) -> S, s: S, a: seq<V>, b: seq<V>)
    ensures Fold(accept, s, a + b) == Fold(accept, Fold(accept, s, a), b)
  {
    if b == [] {
      assert a + b == a;
    } else {
      assert (a + b)[..|a + b| - 1] == a + b[..|b| - 1];
      FoldSplit(accept, s, a, b[..|b| - 1]);
    }
  }

  /** A clone's result on later views, joined to a rower's own on the earlier ones, is the result on all. */
  lemma JoinContinues<S(!new), V(!new)>(accept: (S, V) -> S, join: (S, S) -> S, unit: S, s: S, a: seq<V>, b: seq<V>)
    requires Lawful(accept, join, unit)
    ensures join(Fold(accept, s, a), Fold(accept, unit, b)) == Fold(accept, s, a + b)
  {
    var x := Fold(accept, s, a);
    FoldFromJoin(accept, join, unit, x, unit, b);
    FoldSplit(accept, s, a, b);
  }

  // ---------- which rows a thread gets ----------

  /** The number of threads: the first that gives each fewer rows than twice the minimum, if there is one. */
  function Threads(n: nat): (t: nat)
    ensures 1 <= t <= MAX_NUM_THREADS
    ensures t == 1 <==> n + 1 < 2 * MIN_NROWS_PER_THREAD
    ensures t == MAX_NUM_THREADS || n / t + 1 < 2 * MIN_NROWS_PER_THREAD
    ensures forall u | 1 <= u < t :: n / u + 1 >= 2 * MIN_NROWS_PER_THREAD
  {
    ThreadsFrom(n, 1)
  }

  function ThreadsFrom(n: nat, t: nat): (t': nat)
    requires 1 <= t <= MAX_NUM_THREADS
    ensures t <= t' <= MAX_NUM_THREADS
    ensures t' == t <==> t == MAX_NUM_THREADS || n / t + 1 < 2 * MIN_NROWS_PER_THREAD
    ensures t' == MAX_NUM_THREADS || n / t' + 1 < 2 * MIN_NROWS_PER_THREAD
    ensures forall u | t <= u < t' :: n / u + 1 >= 2 * MIN_NROWS_PER_THREAD
    decreases MAX_NUM_THREADS - t
  {
    if n / t + 1 >= 2 * MIN_NROWS_PER_THREAD && t < MAX_NUM_THREADS then ThreadsFrom(n, t + 1) else t
  }

  /** Where the rows of thread `i` begin, and those of thread `i - 1` end: never past the last row. */
  function Cut(i: nat, perThread: nat, n: nat): (cut: nat)
    ensures cut <= n
  {
    if n <= i * perThread then n else i * perThread
  }

  lemma CutsRise(i: nat, perThread: nat, n: nat)
    ensures Cut(i, perThread, n) <= Cut(i + 1, perThread, n)
  {
    assert i * perThread <= (i + 1) * perThread;
  }

  /** The threads' ranges tile the rows; with more than one thread none is empty. */
  lemma RangesTile(n: nat, threads: nat, perThread: nat)
    requires 1 <= threads <= MAX_NUM_THREADS && perThread == n / threads + 1 && (threads > 1 ==> n >= 100)
    ensures Cut(0, perThread, n) == 0 && Cut(threads, perThread, n) == n
    ensures threads > 1 ==>
              forall i | 0 <= i < threads ::
                Cut(i, perThread, n) == i * perThread && Cut(i, perThread, n) < Cut(i + 1, perThread, n)
  {
    var q: nat := n / threads;
    assert n == threads * q + n % threads && n % threads < threads;
    MulMonotone(threads, MAX_NUM_THREADS, q);
    assert threads * perThread == threads * q + threads >= n;
    if threads > 1 {
      assert (threads - 1) * perThread == threads * q + threads - q - 1 < n;
      forall i | 0 <= i < threads
        ensures Cut(i, perThread, n) == i * perThread && Cut(i, perThread, n) < Cut(i + 1, perThread, n)
      {
        MulMonotone(i, threads - 1, perThread);
        assert (i + 1) * perThread == i * perThread + perThread;
      }
    }
  }

  /** How many rows each thread gets. */
  function PerThread(n: nat): nat {
    n / Threads(n) + 1
  }

  /** The ranges of the threads that are used. */
  lemma ThreadsTile(n: nat)
    ensures Cut(0, PerThread(n), n) == 0 && Cut(Threads(n), PerThread(n), n) == n
    ensures Threads(n) > 1 ==>
              forall i | 0 <= i < Threads(n) ::
                Cut(i, PerThread(n), n) == i * PerThread(n) && Cut(i, PerThread(n), n) < Cut(i + 1, PerThread(n), n)
  {
    RangesTile(n, Threads(n), PerThread(n));
  }

  lemma MulMonotone(a: nat, b: nat, m: nat)
    requires a <= b
    ensures a * m <= b * m
  {
  }

  method ThreadCount(n: nat) returns (threads: nat, perThread: nat)
    ensures threads == Threads(n) && perThread == PerThread(n)
  {
    threads := 1;
    perThread := n / threads + 1;
    while perThread >= MIN_NROWS_PER_THREAD * 2 && threads < MAX_NUM_THREADS
      invariant 1 <= threads <= MAX_NUM_THREADS && perThread == n / threads + 1
      invariant Threads(n) == ThreadsFrom(n, threads)
    {
      threads := threads + 1;
      perThread := n / threads + 1;
    }
  }

  // ---------- what the rowers are shown ----------

  /** The rows that thread `i` visits. */
  function Share<R>(rows: seq<R>, i: nat, perThread: nat): (share: seq<R>)
    ensures |share| == Cut(i + 1, perThread, |rows|) - Cut(i, perThread, |rows|)
  {
    CutsRise(i, perThread, |rows|);
    rows[Cut(i, perThread, |rows|)..Cut(i + 1, perThread, |rows|)]
  }

  /** What thread `i` shows its rower. */
  function ShareViews(types: seq<char>, rows: seq<Row>, i: nat, perThread: nat): (views: seq<View>)
    requires Rectangular(types, rows)
    ensures |views| == Cut(i + 1, perThread, |rows|) - Cut(i, perThread, |rows|)
  {
    CutsRise(i, perThread, |rows|);
    Pass(types, Share(rows, i, perThread), Cut(i, perThread, |rows|))
  }

  /** What the threads from `i` on show, one after the other. */
  function ViewsFrom(types: seq<char>, rows: seq<Row>, i: nat, threads: nat, perThread: nat): seq<View>
    requires Rectangular(types, rows) && i <= threads
    decreases threads - i
  {
    if i == threads then []
    else ShareViews(types, rows, i, perThread) + ViewsFrom(types, rows, i + 1, threads, perThread)
  }

  /** What the parallel map shows. */
  function ParallelViews(types: seq<char>, rows: seq<Row>): seq<View>
    requires Rectangular(types, rows)
  {
    ViewsFrom(types, rows, 0, Threads(|rows|), PerThread(|rows|))
  }

  // ---------- the maps ----------

  /** A thread hands its rows to its rower one by one, through a row object of its own. */
  method RunThread<S>(accept: (S, View) -> S, s: S, types: seq<char>, rows: seq<Row>, start: nat, end: nat) returns (r: S)
    requires Rectangular(types, rows) && start <= end <= |rows|
    ensures r == Fold(accept, s, Pass(types, rows[start..end], start))
  {
    hide Held, Over, Marks;
    r := s;
    var row := new RowObject(types);
    ghost var part := rows[start..end];
    ghost var views := Pass(types, part, start);
    assert part[..0] == [] && views[..0] == [];
    for i := start to end
      invariant |row.vals| == |row.missing| == |types| && row.vals == Held(types, part[..i - start])
      invariant r == Fold(accept, s, views[..i - start])
    {
      HeldNext(types, part, i - start);
      row.Fill(i, rows[i]);
      assert row.Shows() == views[i - start];
      assert views[..i - start + 1][..i - start] == views[..i - start];
      r := accept(r, row.Shows());
    }
    assert views[..end - start] == views;
  }

  /** The sequential map fills all rows into one row object. */
  method Map<S>(accept: (S, View) -> S, s: S, types: seq<char>, rows: seq<Row>) returns (r: S)
    requires Rectangular(types, rows)
    ensures r == Fold(accept, s, Pass(types, rows, 0))
  {
    hide Held, Over, Marks;
    r := s;
    var row := new RowObject(types);
    ghost var views := Pass(types, rows, 0);
    assert rows[..0] == [] && views[..0] == [];
    for i := 0 to |rows|
      invariant |row.vals| == |row.missing| == |types| && row.vals == Held(types, rows[..i])
      invariant r == Fold(accept, s, views[..i])
    {
      HeldNext(types, rows, i);
      row.Fill(i, rows[i]);
      assert row.Shows() == views[i];
      assert views[..i + 1][..i] == views[..i];
      r := accept(r, row.Shows());
    }
    assert views[..|rows|] == views;
  }

  /** Only the first thread continues the caller's rower; the others start from fresh clones. */
  function Start<S>(s: S, unit: S, i: nat): S {
    if i == 0 then s else unit
  }

  /** The first `k` rowers each hold what their own views gave them. */
  ghost predicate AllRan<S>(accept: (S, View) -> S, unit: S, s: S, types: seq<char>, rows: seq<Row>,
                            perThread: nat, rowers: seq<S>, k: nat)
    requires Rectangular(types, rows) && k <= |rowers|
  {
    forall h | 0 <= h < k :: rowers[h] == Fold(accept, Start(s, unit, h), ShareViews(types, rows, h, perThread))
  }

  /** One rower per thread: the caller's, then clones of clones; every one sees only its own rows. */
  method RunThreads<S(!new)>(accept: (S, View) -> S, unit: S, s: S, types: seq<char>, rows: seq<Row>,
                             threads: nat, perThread: nat) returns (rowers: seq<S>)
    requires Rectangular(types, rows)
    requires forall i | 0 <= i < threads :: Cut(i, perThread, |rows|) < Cut(i + 1, perThread, |rows|)
    ensures |rowers| == threads && AllRan(accept, unit, s, types, rows, perThread, rowers, threads)
  {
    hide Cut, Start, Fold, Pass;
    rowers := [];
    for i := 0 to threads
      invariant |rowers| == i && AllRan(accept, unit, s, types, rows, perThread, rowers, i)
    {
      var start, end := Cut(i, perThread, |rows|), Cut(i + 1, perThread, |rows|);
      var result := RunThread(accept, Start(s, unit, i), types, rows, start, end);
      rowers := rowers + [result];
    }
  }

  /** Every rower is joined into the one before it, from the last to the first. */
  method JoinAll<S(!new)>(accept: (S, View) -> S, join: (S, S) -> S, unit: S, s: S, types: seq<char>, rows: seq<Row>,
                          perThread: nat, rowers: seq<S>) returns (r: S)
    requires Lawful(accept, join, unit) && |rowers| > 0 && Rectangular(types, rows)
    requires AllRan(accept, unit, s, types, rows, perThread, rowers, |rowers|)
    ensures r == Fold(accept, s, ViewsFrom(types, rows, 0, |rowers|, perThread))
  {
    hide ShareViews, Fold, Lawful;
    var left := rowers;
    var i := |left| - 1;
    assert ViewsFrom(types, rows, i, |left|, perThread) == ShareViews(types, rows, i, perThread) + [];
    assert ViewsFrom(types, rows, i, |left|, perThread) == ShareViews(types, rows, i, perThread);
    while i > 0
      invariant 0 <= i < |left| == |rowers| && AllRan(accept, unit, s, types, rows, perThread, left, i)
      invariant left[i] == Fold(accept, Start(s, unit, i), ViewsFrom(types, rows, i, |rowers|, perThread))
    {
      JoinContinues(accept, join, unit, Start(s, unit, i - 1), ShareViews(types, rows, i - 1, perThread),
                    ViewsFrom(types, rows, i, |rowers|, perThread));
      left := left[i - 1 := join(left[i - 1], left[i])];
      i := i - 1;
    }
    r := left[0];
  }

  /** The parallel map leaves in the rower what visiting the threads' views in order leaves. */
  method PMap<S(!new)>(accept: (S, View) -> S, join: (S, S) -> S, unit: S, s: S, types: seq<char>, rows: seq<Row>)
    returns (r: S)
    requires Lawful(accept, join, unit) && Rectangular(types, rows)
    ensures r == Fold(accept, s, ParallelViews(types, rows))
    ensures AllClean(types, rows) || IgnoresMissing(accept) ==> r == Fold(accept, s, Pass(types, rows, 0))
  {
    hide Lawful, Fold, Cut, AllClean, IgnoresMissing, Pass, PerThread;
    var threads, perThread := ThreadCount(|rows|);
    ThreadsTile(|rows|);
    ParallelIsSequentialIf(accept, s, types, rows);
    if threads == 1 {
      OneThread(types, rows);
      r := Map(accept, s, types, rows);
    } else {
      var rowers := RunThreads(accept, unit, s, types, rows, threads, perThread);
      r := JoinAll(accept, join, unit, s, types, rows, perThread, rowers);
    }
  }

  lemma OneThread(types: seq<char>, rows: seq<Row>)
    requires Rectangular(types, rows) && Threads(|rows|) == 1
    ensures ParallelViews(types, rows) == Pass(types, rows, 0)
  {
    hide Pass;
    var perThread := PerThread(|rows|);
    assert perThread == |rows| + 1;
    assert Cut(0, perThread, |rows|) == 0 && Cut(1, perThread, |rows|) == |rows|;
    assert Share(rows, 0, perThread) == rows;
    assert ViewsFrom(types, rows, 0, 1, perThread) == ShareViews(types, rows, 0, perThread) + [];
  }

  // ---------- when the two maps agree ----------

  /** No later thread begins with a missing value that the sequential map shows as something else. */
  predicate AllClean(types: seq<char>, rows: seq<Row>)
    requires Rectangular(types, rows)
  {
    var t, perThread := Threads(|rows|), PerThread(|rows|);
    forall i | 0 < i < t && Cut(i, perThread, |rows|) < |rows| :: CleanAt(types, rows, Cut(i, perThread, |rows|))
  }

  /** A rower that reads a value only where it is not missing. */
  ghost predicate IgnoresMissing<S(!new)>(accept: (S, View) -> S) {
    forall s, v, v' :: Present(v) == Present(v') ==> accept(s, v) == accept(s, v')
  }

  /** A view without the values behind missing marks. */
  function Present(v: View): View {
    View(v.idx, seq(|v.vals|, j requires 0 <= j < |v.vals| =>
      if j < |v.missing| && v.missing[j] then Missing else v.vals[j]), v.missing)
  }

  /** What the threads from `i` on show at row `p`, which belongs to thread `h`. */
  lemma {:induction false} ViewAt(types: seq<char>, rows: seq<Row>, i: nat, threads: nat, perThread: nat, h: nat, p: nat)
    requires Rectangular(types, rows) && i <= h < threads
    requires Cut(h, perThread, |rows|) <= p < Cut(h + 1, perThread, |rows|)
    ensures var start := Cut(h, perThread, |rows|);
            var views := ViewsFrom(types, rows, i, threads, perThread);
            && Cut(i, perThread, |rows|) <= p < Cut(i, perThread, |rows|) + |views|
            && views[p - Cut(i, perThread, |rows|)] == View(p, Held(types, rows[start..p + 1]), Marks(rows[p]))
    decreases threads - i
  {
    hide Cut, Held, Marks;
    CutsRise(i, perThread, |rows|);
    if i == h {
      var start := Cut(h, perThread, |rows|);
      assert Share(rows, h, perThread)[..p - start + 1] == rows[start..p + 1];
    } else {
      ViewAt(types, rows, i + 1, threads, perThread, h, p);
    }
  }

  lemma {:induction false} ViewsLength(types: seq<char>, rows: seq<Row>, i: nat, threads: nat, perThread: nat)
    requires Rectangular(types, rows) && i <= threads
    ensures |ViewsFrom(types, rows, i, threads, perThread)| ==
            Cut(threads, perThread, |rows|) - Cut(i, perThread, |rows|)
    decreases threads - i
  {
    hide Cut;
    if i < threads {
      ViewsLength(types, rows, i + 1, threads, perThread);
    }
  }

  /** Every row belongs to a thread. */
  lemma {:induction false} ThreadOf(n: nat, perThread: nat, threads: nat, p: nat) returns (h: nat)
    requires Cut(0, perThread, n) <= p < Cut(threads, perThread, n)
    ensures h < threads && Cut(h, perThread, n) <= p < Cut(h + 1, perThread, n)
  {
    hide Cut;
    h := 0;
    while Cut(h + 1, perThread, n) <= p
      invariant Cut(h, perThread, n) <= p
      invariant h < threads
      decreases threads - h
    {
      h := h + 1;
    }
  }

  /** One view of the parallel map. */
  lemma ParallelViewAt(types: seq<char>, rows: seq<Row>, p: nat) returns (h: nat)
    requires Rectangular(types, rows) && p < |rows|
    ensures |ParallelViews(types, rows)| == |rows|
    ensures var perThread := PerThread(|rows|);
            && h < Threads(|rows|) && Cut(h, perThread, |rows|) <= p < Cut(h + 1, perThread, |rows|)
            && ParallelViews(types, rows)[p] ==
               View(p, Held(types, rows[Cut(h, perThread, |rows|)..p + 1]), Marks(rows[p]))
  {
    hide Cut, Held, Marks, Threads, PerThread, ViewsFrom;
    var t, perThread := Threads(|rows|), PerThread(|rows|);
    ThreadsTile(|rows|);
    h := ThreadOf(|rows|, perThread, t, p);
    ViewAt(types, rows, 0, t, perThread, h, p);
    ViewsLength(types, rows, 0, t, perThread);
  }

  lemma SameViewsIfClean(types: seq<char>, rows: seq<Row>)
    requires Rectangular(types, rows) && AllClean(types, rows)
    ensures ParallelViews(types, rows) == Pass(types, rows, 0)
  {
    hide Cut, Held, Marks, CleanAt, ParallelViews, PerThread;
    var n, perThread := |rows|, PerThread(|rows|);
    ParallelLength(types, rows);
    ThreadsTile(n);
    forall p | 0 <= p < n ensures ParallelViews(types, rows)[p] == Pass(types, rows, 0)[p] {
      var h := ParallelViewAt(types, rows, p);
      ShownAlike(types, rows, Cut(h, perThread, n), p);
    }
  }

  lemma CleanIfSameViews(types: seq<char>, rows: seq<Row>)
    requires Rectangular(types, rows) && ParallelViews(types, rows) == Pass(types, rows, 0)
    ensures AllClean(types, rows)
  {
    hide Cut, Held, Marks, CleanAt, ViewsFrom, PerThread;
    var t, n, perThread := Threads(|rows|), |rows|, PerThread(|rows|);
    ThreadsTile(n);
    forall i | 0 < i < t && Cut(i, perThread, n) < n ensures CleanAt(types, rows, Cut(i, perThread, n)) {
      var c := Cut(i, perThread, n);
      ViewAt(types, rows, 0, t, perThread, i, c);
      assert Pass(types, rows, 0)[c].vals == Held(types, rows[..c + 1]);
      FreshStart(types, rows, c);
    }
  }

  lemma ParallelLength(types: seq<char>, rows: seq<Row>)
    requires Rectangular(types, rows)
    ensures |ParallelViews(types, rows)| == |rows|
  {
    hide Cut, Threads, PerThread, ViewsFrom;
    ThreadsTile(|rows|);
    ViewsLength(types, rows, 0, Threads(|rows|), PerThread(|rows|));
  }

  /**
   The parallel map shows exactly what the sequential map shows if and only if
   no later thread begins with a missing value that hides another one.
   */
  lemma SameViewsIff(types: seq<char>, rows: seq<Row>)
    requires Rectangular(types, rows)
    ensures |ParallelViews(types, rows)| == |rows|
    ensures ParallelViews(types, rows) == Pass(types, rows, 0) <==> AllClean(types, rows)
  {
    hide AllClean, ParallelViews, Pass;
    ParallelLength(types, rows);
    if AllClean(types, rows) {
      SameViewsIfClean(types, rows);
    }
    if ParallelViews(types, rows) == Pass(types, rows, 0) {
      CleanIfSameViews(types, rows);
    }
  }

  lemma ShownAlike(types: seq<char>, rows: seq<Row>, c: nat, p: nat)
    requires Rectangular(types, rows) && c <= p < |rows| && (c == 0 || CleanAt(types, rows, c))
    ensures Held(types, rows[c..p + 1]) == Held(types, rows[..p + 1])
  {
    if c == 0 {
      assert rows[0..p + 1] == rows[..p + 1];
    } else {
      CleanStart(types, rows, c, p);
    }
  }

  lemma {:induction false} FoldPresent<S(!new)>(accept: (S, View) -> S, s: S, a: seq<View>, b: seq<View>)
    requires IgnoresMissing(accept) && |a| == |b|
    requires forall p | 0 <= p < |a| :: Present(a[p]) == Present(b[p])
    ensures Fold(accept, s, a) == Fold(accept, s, b)
  {
    if a != [] {
      var n := |a| - 1;
      FoldPresent(accept, s, a[..n], b[..n]);
      assert Present(a[n]) == Present(b[n]);
    }
  }

  /** Two views of one row agree on what is present. */
  lemma {:induction false} PresentIsRow(types: seq<char>, rows: seq<Row>, p: nat)
    requires Rectangular(types, rows) && rows != []
    ensures Present(View(p, Held(types, rows), Marks(rows[|rows| - 1]))) ==
            View(p, rows[|rows| - 1], Marks(rows[|rows| - 1]))
  {
  }

  lemma ParallelIsSequentialIf<S(!new)>(accept: (S, View) -> S, s: S, types: seq<char>, rows: seq<Row>)
    requires Rectangular(types, rows)
    ensures AllClean(types, rows) || IgnoresMissing(accept) ==>
              Fold(accept, s, ParallelViews(types, rows)) == Fold(accept, s, Pass(types, rows, 0))
  {
    hide Fold, AllClean, IgnoresMissing, Cut, Held, Marks, ParallelViews, Present;
    SameViewsIff(types, rows);
    if IgnoresMissing(accept) {
      var parallel, pass := ParallelViews(types, rows), Pass(types, rows, 0);
      forall p | 0 <= p < |rows| ensures Present(parallel[p]) == Present(pass[p]) {
        var h := ParallelViewAt(types, rows, p);
        var start := Cut(h, PerThread(|rows|), |rows|);
        PresentIsRow(types, rows[start..p + 1], p);
        PresentIsRow(types, rows[..p + 1], p);
      }
      FoldPresent(accept, s, parallel, pass);
    }
  }

  // ---------- two rowers ----------

  /** A rower that keeps what it is shown joins by concatenation, which does not commute. */
  function Keep<V>(seen: seq<V>, v: V): seq<V> { seen + [v] }

  function Follow<V>(a: seq<V>, b: seq<V>): seq<V> { a + b }

  lemma KeepingIsLawful<V(!new)>()
    ensures Lawful<seq<V>, V>(Keep, Follow, [])
  {
    assert forall a: seq<V> :: Follow(a, []) == a;
    assert forall a: seq<V>, b: seq<V>, c: seq<V> :: Follow(Follow(a, b), c) == Follow(a, Follow(b, c));
    assert forall a: seq<V>, v: V :: Keep(a, v) == Follow(a, Keep([], v));
  }

  lemma {:induction false} KeepsAll<V>(seen: seq<V>, views: seq<V>)
    ensures Fold(Keep, seen, views) == seen + views
  {
    if views != [] {
      KeepsAll(seen, views[..|views| - 1]);
      assert views == views[..|views| - 1] + [views[|views| - 1]];
    }
  }

  /** For the rower that keeps what it is shown, the two maps agree exactly on clean frames. */
  method CollectRows(types: seq<char>, rows: seq<Row>) returns (sequential: seq<View>, parallel: seq<View>)
    requires Rectangular(types, rows)
    ensures sequential == Pass(types, rows, 0) && parallel == ParallelViews(types, rows)
    ensures sequential == parallel <==> AllClean(types, rows)
  {
    hide AllClean, Pass, ParallelViews;
    KeepingIsLawful<View>();
    KeepsAll([], Pass(types, rows, 0));
    KeepsAll([], ParallelViews(types, rows));
    SameViewsIff(types, rows);
    sequential := Map(Keep, [], types, rows);
    parallel := PMap(Keep, Follow, [], [], types, rows);
  }

  /** A rower that adds up the first column, reading it whether it is missing or not. */
  function AddFirst(sum: int, v: View): int {
    sum + First(v)
  }

  function First(v: View): int {
    if v.vals != [] && v.vals[0].Int? then v.vals[0].i else 0
  }

  function Plus(a: int, b: int): int { a + b }

  lemma AddingIsLawful()
    ensures Lawful(AddFirst, Plus, 0)
  {
  }

  /** 999999 fives, but for the row where the second of two threads begins. */
  function FivesWithGap(): (rows: seq<Row>)
    ensures Rectangular("I", rows) && |rows| == 999999
  {
    seq(999999, i => if i == 500000 then [Missing] else [Int(5)])
  }

  lemma {:induction false} SumUpdate(views: seq<View>, c: nat, v: View)
    requires c < |views|
    ensures Fold(AddFirst, 0, views[c := v]) == Fold(AddFirst, 0, views) - First(views[c]) + First(v)
  {
    var n := |views| - 1;
    if c < n {
      assert views[c := v][..n] == views[..n][c := v];
      SumUpdate(views[..n], c, v);
    } else {
      assert views[c := v][..n] == views[..n];
    }
  }

  /** The second thread's first row shows 5 in the sequential map and 0 in the parallel one. */
  lemma GapViews()
    ensures var rows := FivesWithGap();
            var pass := Pass("I", rows, 0);
            |ParallelViews("I", rows)| == |pass| == 999999 &&
            First(pass[500000]) == 5 && First(ParallelViews("I", rows)[500000]) == 0 &&
            ParallelViews("I", rows) == pass[500000 := ParallelViews("I", rows)[500000]]
  {
    hide FivesWithGap, ParallelViews, Held;
    var rows := FivesWithGap();
    var parallel, pass := ParallelViews("I", rows), Pass("I", rows, 0);
    TwoThreads();
    ParallelLength("I", rows);
    forall p | 0 <= p < 999999 ensures p == 500000 || parallel[p] == pass[p] {
      var h := ParallelViewAt("I", rows, p);
      GapRow(p);
      if p != 500000 {
        LastRowShown("I", rows[Cut(h, 500000, 999999)..p + 1]);
        LastRowShown("I", rows[..p + 1]);
      }
    }
    var h := ParallelViewAt("I", rows, 500000);
    assert h == 1;
    GapRow(500000);
    GapRow(499999);
    HeldNext("I", rows, 500000);
    LastRowShown("I", rows[..500000]);
    FreshGap(rows[500000..500001]);
  }

  lemma TwoThreads()
    ensures Threads(999999) == 2 && PerThread(999999) == 500000
  {
  }

  lemma GapRow(p: nat)
    requires p < 999999
    ensures FivesWithGap()[p] == if p == 500000 then [Missing] else [Int(5)]
  {
  }

  lemma LastRowShown(types: seq<char>, rows: seq<Row>)
    requires Rectangular(types, rows) && rows != []
    requires var r := rows[|rows| - 1]; forall j | 0 <= j < |r| :: !r[j].Missing?
    ensures Held(types, rows) == rows[|rows| - 1]
  {
  }

  lemma FreshGap(rows: seq<Row>)
    requires rows == [[Missing]]
    ensures Held("I", rows) == [Int(0)]
  {
    assert rows[..0] == [];
  }

  /** So the sum of a frame with one missing value differs between the two maps, though adding is lawful. */
  lemma SumsDiffer()
    ensures Lawful(AddFirst, Plus, 0)
    ensures var rows := FivesWithGap();
            Fold(AddFirst, 0, Pass("I", rows, 0)) == Fold(AddFirst, 0, ParallelViews("I", rows)) + 5
  {
    hide FivesWithGap, ParallelViews, Pass, Fold;
    AddingIsLawful();
    GapViews();
    var rows := FivesWithGap();
    SumUpdate(Pass("I", rows, 0), 500000, ParallelViews("I", rows)[500000]);
  }
}
