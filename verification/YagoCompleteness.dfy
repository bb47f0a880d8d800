/** src/common-core/src/yago_taxonomy.rs, `transitive_ancestors`: exactly which
    hierarchies lose no ancestor, whatever the order of the parents and of the
    classes. */
module YagoCompleteness {
  import opened Sequences
  import opened Reachability
  import opened YagoAncestors

  ghost predicate CompleteRun(direct: Table, order: seq<int>) {
    var run := Run(direct, order);
    forall n :: n in order ==> n in run && HoldsAbove(DirectEdges(direct), n, run[n])
  }

  ghost predicate AllRunsComplete(edges: set<(int, int)>) {
    forall direct, order :: IsRun(edges, direct, order) ==> CompleteRun(direct, order)
  }

  ghost predicate AllFull(edges: set<(int, int)>) {
    forall n :: Full(edges, n)
  }

  lemma FullIsComplete(edges: set<(int, int)>, direct: Table, order: seq<int>)
    requires AllFull(edges) && IsRun(edges, direct, order)
    ensures CompleteRun(direct, order)
  {
    hide HoldsAbove, Full, Run;
    RunHasAll(direct, order);
    RunComplete(direct, order);
  }

  // A table whose searches follow a given path

  ghost function Listed(s: set<int>): (r: seq<int>)
    ensures NoDup(r) && Elems(r) == s
  {
    if s == {} then []
    else
      assert exists x :: x in s by { var w := Inhabited(s); }
      var x :| x in s;
      ElemsAppend(Listed(s - {x}), x);
      NoDupAppend(Listed(s - {x}), x);
      Listed(s - {x}) + [x]
  }

  ghost function ParentsOfClass(edges: set<(int, int)>, n: int): set<int> {
    set e | e in edges && e.0 == n :: e.1
  }

  ghost predicate Follows(edges: set<(int, int)>, path: seq<int>, n: int, p: int) {
    exists j :: 0 <= j < |path| - 1 && path[j] == n && path[j + 1] == p && (n, p) in edges
  }

  /** The parents of `n`, the next class on the path first. */
  ghost function ParentList(edges: set<(int, int)>, path: seq<int>, n: int): (r: seq<int>)
    ensures Elems(r) == ParentsOfClass(edges, n)
    ensures forall p :: Follows(edges, path, n, p) ==> r != [] && Follows(edges, path, n, r[0])
  {
    if exists p :: Follows(edges, path, n, p) then
      var p :| Follows(edges, path, n, p);
      assert p in ParentsOfClass(edges, n) by { assert (n, p) in edges; }
      ConsElems(p, Listed(ParentsOfClass(edges, n) - {p}));
      [p] + Listed(ParentsOfClass(edges, n) - {p})
    else Listed(ParentsOfClass(edges, n))
  }

  lemma ConsElems(x: int, s: seq<int>)
    ensures Elems([x] + s) == {x} + Elems(s)
  {
  }

  ghost function PathTable(edges: set<(int, int)>, path: seq<int>): Table {
    map n | n in (set e | e in edges :: e.0) :: ParentList(edges, path, n)
  }

  lemma PathTableEdges(edges: set<(int, int)>, path: seq<int>)
    ensures DirectEdges(PathTable(edges, path)) == edges
  {
    hide ParentList;
    var direct := PathTable(edges, path);
    forall n, p ensures (n, p) in DirectEdges(direct) <==> (n, p) in edges {
      assert p in Elems(ParentList(edges, path, n)) <==> p in ParentsOfClass(edges, n);
      if (n, p) in edges {
        var e := (n, p);
        assert e.0 in direct;
        assert p in direct[n];
      }
    }
    assert forall e | e in DirectEdges(direct) :: e == (e.0, e.1);
    assert forall e | e in edges :: e == (e.0, e.1);
  }

  /** On a simple path the next class is the first parent. */
  lemma NextIsFirst(edges: set<(int, int)>, path: seq<int>, i: nat)
    requires NoDup(path) && IsPath(edges, path) && i < |path| - 1
    ensures path[i] in PathTable(edges, path)
    ensures var parents := PathTable(edges, path)[path[i]]; parents != [] && parents[0] == path[i + 1]
  {
    var n, p := path[i], path[i + 1];
    assert (n, p) in edges;
    var e := (n, p);
    assert e.0 == n;
    assert Follows(edges, path, n, p);
    var q := ParentList(edges, path, n)[0];
    assert Follows(edges, path, n, q);
  }

  // What the class at the end of the path is left with

  /** The class at the end is memoised first, with the whole path in progress. */
  lemma {:induction false} EndMemo(edges: set<(int, int)>, path: seq<int>, i: nat)
    requires NoDup(path) && IsPath(edges, path) && i < |path|
    ensures var direct, v := PathTable(edges, path), path[|path| - 1];
            var memo := Dfs(direct, path[i], map[], Elems(path[..i])).memo;
            v in memo && memo[v] == Dfs(direct, v, map[], Elems(path[..|path| - 1])).out
    decreases |path| - i
  {
    hide PathTable, IsPath, Dfs;
    var direct, k := PathTable(edges, path), |path| - 1;
    var v, n, stack := path[k], path[i], Elems(path[..i]);
    assert n !in stack by { NoDupPrefix(path, i); }
    if i == k {
      OutIsMemoFrom(direct, v, stack);
    } else {
      NextIsFirst(edges, path, i);
      EndMemo(edges, path, i + 1);
      assert path[..i + 1] == path[..i] + [n];
      ElemsAppend(path[..i], n);
      FirstParentKept(direct, n, stack, v);
    }
  }

  /** What the search of the first parent memoises stays. */
  lemma FirstParentKept(direct: Table, n: int, stack: set<int>, v: int)
    requires n in direct && n !in stack && direct[n] != [] && v != n
    requires v in Dfs(direct, direct[n][0], map[], stack + {n}).memo
    ensures var memo := Dfs(direct, n, map[], stack).memo;
            v in memo && memo[v] == Dfs(direct, direct[n][0], map[], stack + {n}).memo[v]
  {
    OneFewer(direct.Keys, stack, n);
    var parents := direct[n];
    var first := Dfs(direct, parents[0], map[], stack + {n});
    DfsParentsExtends(direct, parents[1..], {} + {parents[0]} + first.out, first.memo, stack + {n});
  }

  lemma OutIsMemoFrom(direct: Table, n: int, stack: set<int>)
    requires n !in stack
    ensures var r := Dfs(direct, n, map[], stack); n in r.memo && r.memo[n] == r.out
  {
  }

  ghost predicate NoneMemoised(stack: set<int>, memo: map<int, set<int>>) {
    forall q :: q in stack ==> q !in memo
  }

  /** Parents in progress contribute themselves; the others are sound. */
  lemma {:induction false} EndParents(direct: Table, v: int, parents: seq<int>, out: set<int>, memo: map<int, set<int>>,
                                      stack: set<int>)
    requires MemoSound(direct, memo) && NoneMemoised(stack, memo)
    requires forall p :: p in parents ==> (v, p) in DirectEdges(direct)
    requires forall p :: p in parents && Reaches(DirectEdges(direct), p, v) ==> p in stack
    requires forall x :: x in out ==> Shown(DirectEdges(direct), v, x)
    ensures forall x :: x in DfsParents(direct, parents, out, memo, stack).out ==> Shown(DirectEdges(direct), v, x)
    decreases |parents|
  {
    if parents != [] {
      var p, edges := parents[0], DirectEdges(direct);
      var r := Dfs(direct, p, memo, stack);
      DfsSound(direct, p, memo, stack);
      forall q | q in stack ensures q !in r.memo {
        DfsKeepsInProgress(direct, p, memo, stack, q);
      }
      forall x | x in out + {p} + r.out ensures Shown(edges, v, x) {
        if x !in out && x != p {
          EndParentSound(direct, v, p, x);
        }
      }
      hide Reaches, Shown, MemoSound, DirectEdges, Dfs;
      EndParents(direct, v, parents[1..], out + {p} + r.out, r.memo, stack);
    }
  }

  lemma EndParentSound(direct: Table, v: int, p: int, x: int)
    requires (v, p) in DirectEdges(direct) && !Reaches(DirectEdges(direct), p, v) && Above(direct, p, x)
    ensures Shown(DirectEdges(direct), v, x)
  {
    var edges := DirectEdges(direct);
    var q :| (p, q) in edges && Reaches(edges, q, x);
    ReachesFromEdge(edges, p, q, x);
  }

  /** A simple path that holds every parent of its last class that leads back to it. */
  ghost predicate Closing(edges: set<(int, int)>, path: seq<int>) {
    && path != [] && NoDup(path) && IsPath(edges, path)
    && forall q :: (path[|path| - 1], q) in edges && Reaches(edges, q, path[|path| - 1]) ==> q in path
  }

  lemma EndOut(edges: set<(int, int)>, path: seq<int>, x: int)
    requires Closing(edges, path)
    requires x in Dfs(PathTable(edges, path), path[|path| - 1], map[], Elems(path[..|path| - 1])).out
    ensures Shown(edges, path[|path| - 1], x)
  {
    hide PathTable, Shown, Reaches, IsPath;
    var direct, k := PathTable(edges, path), |path| - 1;
    var v, stack := path[k], Elems(path[..k]);
    PathTableEdges(edges, path);
    NoDupPrefix(path, k);
    if v in direct {
      ParentsAreEdges(direct, v);
      assert path == path[..k] + [v];
      ElemsAppend(path[..k], v);
      EndParents(direct, v, direct[v], {}, map[], stack + {v});
    }
  }

  lemma {:induction false} RunKeepsFirst(direct: Table, order: seq<int>)
    requires order != []
    ensures Extends(Run(direct, order[..1]), Run(direct, order))
  {
    if |order| == 1 {
      assert order[..1] == order;
    } else {
      var front := order[..|order| - 1];
      RunKeepsFirst(direct, front);
      assert front[..1] == order[..1];
      DfsExtends(direct, order[|order| - 1], Run(direct, front), {});
    }
  }

  /** If no run loses an ancestor, the class at the end of such a path is full. */
  lemma EndIsFull(edges: set<(int, int)>, path: seq<int>)
    requires AllRunsComplete(edges) && Closing(edges, path)
    ensures Full(edges, path[|path| - 1])
  {
    hide Shown, Reaches, IsPath, PathTable, Run;
    var direct, v, start := PathTable(edges, path), path[|path| - 1], path[0];
    forall x | x != v && Reaches(edges, v, x) ensures Shown(edges, v, x) {
      var q := FirstStep(edges, v, x);
      StartIsNamed(edges, path, q);
      var order := [start] + Listed(Everything(direct) - {start});
      PathOrder(edges, path, order);
      assert CompleteRun(direct, order);
      FirstSearch(direct, start, order);
      EndMemo(edges, path, 0);
      assert Elems(path[..0]) == {};
      EndIsNamed(edges, path, q, order);
      PathTableEdges(edges, path);
      EndOut(edges, path, x);
    }
  }

  lemma StartIsNamed(edges: set<(int, int)>, path: seq<int>, q: int)
    requires IsPath(edges, path) && (path[|path| - 1], q) in edges
    ensures forall i :: 0 <= i < |path| ==> path[i] in PathTable(edges, path)
  {
    forall i | 0 <= i < |path| ensures path[i] in PathTable(edges, path) {
      var e := if i < |path| - 1 then (path[i], path[i + 1]) else (path[i], q);
      assert e in edges && e.0 == path[i];
    }
  }

  lemma PathOrder(edges: set<(int, int)>, path: seq<int>, order: seq<int>)
    requires path != [] && path[0] in PathTable(edges, path)
    requires order == [path[0]] + Listed(Everything(PathTable(edges, path)) - {path[0]})
    ensures IsRun(edges, PathTable(edges, path), order)
  {
    hide PathTable;
    var direct := PathTable(edges, path);
    var rest := Listed(Everything(direct) - {path[0]});
    PathTableEdges(edges, path);
    ConsElems(path[0], rest);
    NoDupConcat([path[0]], rest);
  }

  lemma EndIsNamed(edges: set<(int, int)>, path: seq<int>, q: int, order: seq<int>)
    requires IsPath(edges, path) && (path[|path| - 1], q) in edges && IsRun(edges, PathTable(edges, path), order)
    ensures path[|path| - 1] in order
  {
    StartIsNamed(edges, path, q);
    assert path[|path| - 1] in Elems(order);
  }

  lemma FirstSearch(direct: Table, start: int, order: seq<int>)
    requires order != [] && order[0] == start
    ensures Extends(Dfs(direct, start, map[], {}).memo, Run(direct, order))
  {
    RunKeepsFirst(direct, order);
    assert order[..1] == [start] && [start][..0] == [];
    assert Run(direct, [start][..0]) == map[];
  }

  // Every class ends such a path

  ghost predicate AllLeadBack(edges: set<(int, int)>, path: seq<int>) {
    path != [] && forall q :: q in path ==> Reaches(edges, q, path[0])
  }

  /** Extended as long as possible, a path of classes on one cycle closes. */
  lemma {:induction false} LongestPath(edges: set<(int, int)>, path: seq<int>) returns (longest: seq<int>)
    requires NoDup(path) && IsPath(edges, path) && AllLeadBack(edges, path)
    ensures Closing(edges, longest) && AllLeadBack(edges, longest) && longest[0] == path[0]
    decreases |(set e | e in edges :: e.1) + {path[0]}| - |path|
  {
    var bound, v := (set e | e in edges :: e.1) + {path[0]}, path[|path| - 1];
    if forall q :: (v, q) in edges && Reaches(edges, q, v) ==> q in path {
      return path;
    }
    var q :| (v, q) in edges && Reaches(edges, q, v) && q !in path;
    var more := path + [q];
    hide Reaches;
    PathAppend(edges, path, q);
    NoDupAppend(path, q);
    ReachesTrans(edges, q, v, path[0]);
    assert forall x :: x in more ==> x in path || x == q;
    PathBound(edges, more);
    longest := LongestPath(edges, more);
  }

  lemma PathAppend(edges: set<(int, int)>, path: seq<int>, q: int)
    requires IsPath(edges, path) && (path[|path| - 1], q) in edges
    ensures IsPath(edges, path + [q])
  {
  }

  lemma PathBound(edges: set<(int, int)>, path: seq<int>)
    requires NoDup(path) && IsPath(edges, path)
    ensures |path| <= |(set e | e in edges :: e.1) + {path[0]}|
  {
    var bound := (set e | e in edges :: e.1) + {path[0]};
    forall x | x in Elems(path) ensures x in bound {
      var i :| 0 <= i < |path| && path[i] == x;
      if i > 0 {
        var e := (path[i - 1], path[i - 1 + 1]);
        assert e in edges && e.1 == x;
      }
    }
    NoDupLength(path, bound);
  }

  /** A full class has every other class of its cycle as a parent. */
  lemma CycleIsDirect(edges: set<(int, int)>, n: int, x: int)
    requires Full(edges, n) && n != x && Reaches(edges, n, x) && Reaches(edges, x, n)
    ensures (n, x) in edges
  {
    hide Reaches;
    assert Shown(edges, n, x);
    if (n, x) !in edges {
      var p :| (n, p) in edges && !Reaches(edges, p, n) && Reaches(edges, p, x);
      ReachesTrans(edges, p, x, n);
    }
  }

  /** The longest path holds the whole cycle, so its first class can be moved to the end. */
  lemma RotationCloses(edges: set<(int, int)>, path: seq<int>)
    requires Closing(edges, path) && AllLeadBack(edges, path) && |path| >= 2 && Full(edges, path[|path| - 1])
    ensures Closing(edges, path[1..] + [path[0]])
  {
    hide Reaches, Full;
    var n, v, rest := path[0], path[|path| - 1], path[1..];
    FromStart(edges, path);
    CycleIsDirect(edges, v, n);
    forall j | 0 <= j < |rest| - 1 ensures (rest[j], rest[j + 1]) in edges {
      assert (path[j + 1], path[j + 1 + 1]) in edges;
    }
    PathAppend(edges, rest, n);
    assert path == [n] + rest;
    NoDupParts([n], rest);
    assert n in Elems([n]);
    NoDupAppend(rest, n);
    forall q | (n, q) in edges && Reaches(edges, q, n) ensures q in rest + [n] {
      ReachesStep(edges, v, n, q);
      ReachesTrans(edges, q, n, v);
      if q != v {
        CycleIsDirect(edges, v, q);
      }
      assert q in path;
    }
  }

  lemma FromStart(edges: set<(int, int)>, path: seq<int>)
    requires IsPath(edges, path)
    ensures Reaches(edges, path[0], path[|path| - 1])
  {
    assert PathBetween(edges, path, path[0], path[|path| - 1]);
  }

  lemma CompleteIsFull(edges: set<(int, int)>, n: int)
    requires AllRunsComplete(edges)
    ensures Full(edges, n)
  {
    hide AllRunsComplete, Full;
    ReachesSelf(edges, n);
    var path := LongestPath(edges, [n]);
    EndIsFull(edges, path);
    if |path| >= 2 {
      RotationCloses(edges, path);
      EndIsFull(edges, path[1..] + [path[0]]);
    }
  }

  /** No run loses an ancestor, whatever the order of parents and classes, if and only
      if the parents of every class show all that lies above it. */
  lemma CompleteIff(edges: set<(int, int)>)
    ensures AllRunsComplete(edges) <==> AllFull(edges)
  {
    hide CompleteRun, Full;
    if AllRunsComplete(edges) {
      forall n ensures Full(edges, n) {
        CompleteIsFull(edges, n);
      }
    }
    if AllFull(edges) {
      forall direct, order | IsRun(edges, direct, order) ensures CompleteRun(direct, order) {
        FullIsComplete(edges, direct, order);
      }
    }
  }

  // The least hierarchy that loses one

  /** Classes 0 and 1 are each other's parents and 0 has the parent 2 beside: the
      search from 0 memoises 1 while 0 is in progress, without 2. */
  lemma TwoCycleLosesAncestor()
    ensures var direct: Table := map[0 := [1, 2], 1 := [0]];
            && IsRun(DirectEdges(direct), direct, [0, 1, 2])
            && Reaches(DirectEdges(direct), 1, 2)
            && 1 in Run(direct, [0, 1, 2]) && 2 !in Run(direct, [0, 1, 2])[1]
  {
    var direct: Table := map[0 := [1, 2], 1 := [0]];
    var edges := DirectEdges(direct);
    assert (1, 0) in edges && (0, 2) in edges;
    ReachesEdge(edges, 1, 0);
    ReachesStep(edges, 1, 0, 2);
    assert Everything(direct) == {0, 1, 2} by {
      assert 1 in direct[0] && 2 in direct[0];
    }
    assert Elems([0, 1, 2]) == {0, 1, 2};
    FirstSearch(direct, 0, [0, 1, 2]);
    OneInProgress(direct);
  }

  lemma OneInProgress(direct: Table)
    requires direct == map[0 := [1, 2], 1 := [0]]
    ensures var memo := Dfs(direct, 0, map[], {}).memo; 1 in memo && memo[1] == {0}
  {
    var stack := {} + {0};
    var first := Dfs(direct, 1, map[], stack);
    assert first.memo == map[1 := {0}] by {
      assert [0][1..] == [];
      assert {} + {0} + {} == {0};
      assert DfsParents(direct, [], {0}, map[], stack + {1}) == Found({0}, map[]);
      assert DfsParents(direct, [0], {}, map[], stack + {1}) == Found({0}, map[]);
    }
    DfsParentsExtends(direct, direct[0][1..], {} + {1} + first.out, first.memo, stack);
  }
}
