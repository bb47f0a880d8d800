/** The ordering core shared by the dependency graph and the resolver
    (src/dag/src/dep_graph.rs, `kahn_sort`). `TopologicalOrders` says what an order
    is without naming the algorithm; `Kahn` is the algorithm. */
module TopologicalOrders {
  import opened Sequences
  import opened Reachability

  /** Everything that must come before `n` is in `done`, and `n` is not. */
  ghost predicate Ready(nodes: set<int>, edges: set<(int, int)>, done: set<int>, n: int) {
    n in nodes && n !in done && forall k :: (k, n) in edges ==> k in done
  }

  ghost predicate LeastReady(nodes: set<int>, edges: set<(int, int)>, done: set<int>, n: int) {
    Ready(nodes, edges, done, n) && forall m :: Ready(nodes, edges, done, m) ==> n <= m
  }

  ghost predicate Within(edges: set<(int, int)>, nodes: set<int>) {
    forall a, b :: (a, b) in edges ==> a in nodes && b in nodes
  }

  /** Each element is the least node that was ready when it was placed. */
  ghost predicate Greedy(nodes: set<int>, edges: set<(int, int)>, s: seq<int>) {
    forall i :: 0 <= i < |s| ==> LeastReady(nodes, edges, Elems(s[..i]), s[i])
  }

  /** A greedy order that cannot be extended. */
  ghost predicate KahnOrder(nodes: set<int>, edges: set<(int, int)>, s: seq<int>) {
    Greedy(nodes, edges, s) && forall m :: !Ready(nodes, edges, Elems(s), m)
  }

  /** A permutation of the nodes in which every edge points forward. */
  ghost predicate Topological(nodes: set<int>, edges: set<(int, int)>, s: seq<int>) {
    && NoDup(s)
    && Elems(s) == nodes
    && forall i, j :: 0 <= i < |s| && 0 <= j < |s| && (s[i], s[j]) in edges ==> i < j
  }

  ghost predicate LexLess(s: seq<int>, t: seq<int>) {
    exists i :: 0 <= i < |s| && i < |t| && s[..i] == t[..i] && s[i] < t[i]
  }

  ghost predicate LeastTopological(nodes: set<int>, edges: set<(int, int)>, s: seq<int>) {
    && Topological(nodes, edges, s)
    && forall t :: Topological(nodes, edges, t) ==> t == s || LexLess(s, t)
  }

  /** `n` lies on a cycle or downstream of one. */
  ghost predicate BehindCycle(edges: set<(int, int)>, n: int) {
    exists c :: OnCycle(edges, c) && Reaches(edges, c, n)
  }

  lemma GreedyAppend(nodes: set<int>, edges: set<(int, int)>, s: seq<int>, x: int)
    ensures Greedy(nodes, edges, s + [x]) <==> Greedy(nodes, edges, s) && LeastReady(nodes, edges, Elems(s), x)
  {
    var t := s + [x];
    assert forall i :: 0 <= i < |s| ==> t[..i] == s[..i];
    assert t[..|s|] == s;
    if Greedy(nodes, edges, t) {
      assert LeastReady(nodes, edges, Elems(t[..|s|]), t[|s|]);
      forall i | 0 <= i < |s| ensures LeastReady(nodes, edges, Elems(s[..i]), s[i]) {
        assert LeastReady(nodes, edges, Elems(t[..i]), t[i]);
      }
    }
  }

  lemma GreedyNoDup(nodes: set<int>, edges: set<(int, int)>, s: seq<int>)
    requires Greedy(nodes, edges, s)
    ensures NoDup(s) && Elems(s) <= nodes
  {
  }

  /** What has not been placed yet stays closed under the edges. */
  lemma SuffixClosed(nodes: set<int>, edges: set<(int, int)>, s: seq<int>, i: nat)
    requires Greedy(nodes, edges, s) && Within(edges, nodes) && i <= |s|
    ensures Closed(edges, nodes - Elems(s[..i]))
  {
  }

  lemma GreedyForward(nodes: set<int>, edges: set<(int, int)>, s: seq<int>)
    requires Greedy(nodes, edges, s)
    ensures forall i, j :: 0 <= i < |s| && 0 <= j < |s| && (s[i], s[j]) in edges ==> i < j
  {
  }

  lemma FirstDifference(s: seq<int>, t: seq<int>) returns (i: nat)
    requires |s| == |t| && s != t
    ensures i < |s| && s[..i] == t[..i] && s[i] != t[i]
  {
    var front, front' := s[..|s| - 1], t[..|t| - 1];
    assert s == front + [s[|s| - 1]] && t == front' + [t[|t| - 1]];
    if front == front' {
      i := |s| - 1;
    } else {
      i := FirstDifference(front, front');
      assert s[..i] == front[..i] && t[..i] == front'[..i];
    }
  }

  /** A complete Kahn order is the lexicographically least topological order. */
  lemma KahnOrderIsLeast(nodes: set<int>, edges: set<(int, int)>, s: seq<int>)
    requires KahnOrder(nodes, edges, s) && Elems(s) == nodes && Within(edges, nodes)
    ensures LeastTopological(nodes, edges, s)
  {
    GreedyNoDup(nodes, edges, s);
    GreedyForward(nodes, edges, s);
    forall t | Topological(nodes, edges, t) && t != s ensures LexLess(s, t) {
      NoDupCardinality(s);
      NoDupCardinality(t);
      var i := FirstDifference(s, t);
      assert LeastReady(nodes, edges, Elems(s[..i]), s[i]);
      assert Ready(nodes, edges, Elems(t[..i]), t[i]) by {
        assert t[i] in Elems(t);
        forall k | (k, t[i]) in edges ensures k in Elems(t[..i]) {
          assert k in Elems(t);
          var j :| 0 <= j < |t| && t[j] == k;
          assert t[..i][j] == k;
        }
      }
    }
  }

  lemma {:induction false} GreedyIsPrefix(nodes: set<int>, edges: set<(int, int)>, s: seq<int>, t: seq<int>)
    requires Greedy(nodes, edges, s) && KahnOrder(nodes, edges, t)
    ensures s <= t
  {
    if s != [] {
      var front, last := s[..|s| - 1], s[|s| - 1];
      assert s == front + [last];
      GreedyAppend(nodes, edges, front, last);
      GreedyIsPrefix(nodes, edges, front, t);
      assert t != front;
      assert t[..|front|] == front;
      assert LeastReady(nodes, edges, Elems(t[..|front|]), t[|front|]);
    }
  }

  /** There is only one Kahn order, so every run over the same graph agrees. */
  lemma KahnOrderUnique(nodes: set<int>, edges: set<(int, int)>, s: seq<int>, t: seq<int>)
    requires KahnOrder(nodes, edges, s) && KahnOrder(nodes, edges, t)
    ensures s == t
  {
    GreedyIsPrefix(nodes, edges, s, t);
    GreedyIsPrefix(nodes, edges, t, s);
  }

  lemma CycleNeverPlaced(nodes: set<int>, edges: set<(int, int)>, s: seq<int>, c: int)
    requires Greedy(nodes, edges, s) && Within(edges, nodes) && OnCycle(edges, c)
    ensures c in nodes && c !in s
  {
    var b :| (c, b) in edges && Reaches(edges, b, c);
    GreedyForward(nodes, edges, s);
    forall i | 0 <= i < |s| ensures s[i] != c {
      SuffixClosed(nodes, edges, s, i + 1);
      assert s[..i + 1][i] in Elems(s[..i + 1]);
      if s[i] == c {
        assert forall j :: 0 <= j <= i ==> s[j] != b;
        ClosedHolds(edges, nodes - Elems(s[..i + 1]), b, c);
      }
    }
  }

  lemma UnplacedIsBehindCycle(nodes: set<int>, edges: set<(int, int)>, s: seq<int>, n: int)
    requires KahnOrder(nodes, edges, s) && Within(edges, nodes) && n in nodes && n !in s
    ensures BehindCycle(edges, n)
  {
    var missing := nodes - Elems(s);
    forall x | x in missing ensures Preceded(edges, missing, x) {
      assert !Ready(nodes, edges, Elems(s), x);
      var k :| (k, x) in edges && k !in Elems(s);
      PrecededBy(edges, missing, k, x);
    }
    var c := PredecessorsForceCycle(edges, missing, n);
  }

  lemma BehindCycleIsUnplaced(nodes: set<int>, edges: set<(int, int)>, s: seq<int>, n: int)
    requires Greedy(nodes, edges, s) && Within(edges, nodes) && BehindCycle(edges, n)
    ensures n !in s
  {
    var c :| OnCycle(edges, c) && Reaches(edges, c, n);
    CycleNeverPlaced(nodes, edges, s, c);
    SuffixClosed(nodes, edges, s, |s|);
    assert s[..|s|] == s;
    ClosedHolds(edges, nodes - Elems(s), c, n);
  }

  /** What a Kahn order leaves out is exactly what lies on or behind a cycle. */
  lemma KahnMissing(nodes: set<int>, edges: set<(int, int)>, s: seq<int>, n: int)
    requires KahnOrder(nodes, edges, s) && Within(edges, nodes) && n in nodes
    ensures n !in s <==> BehindCycle(edges, n)
  {
    if n !in s {
      UnplacedIsBehindCycle(nodes, edges, s, n);
    } else if BehindCycle(edges, n) {
      BehindCycleIsUnplaced(nodes, edges, s, n);
    }
  }

  /** A Kahn order is complete exactly when the graph has no cycle. */
  lemma KahnCompleteIffAcyclic(nodes: set<int>, edges: set<(int, int)>, s: seq<int>)
    requires KahnOrder(nodes, edges, s) && Within(edges, nodes)
    ensures Elems(s) == nodes <==> Acyclic(edges)
  {
    GreedyNoDup(nodes, edges, s);
    if Elems(s) == nodes {
      forall a ensures !OnCycle(edges, a) {
        if OnCycle(edges, a) {
          CycleNeverPlaced(nodes, edges, s, a);
        }
      }
    }
    if Acyclic(edges) {
      forall n | n in nodes ensures n in s {
        KahnMissing(nodes, edges, s, n);
      }
    }
  }

  /** The same by positions: edges point forward, a smaller node comes later only while
      it waits for something placed in between, and a node left out waits for one that
      is left out too. */
  lemma KahnOrderMeans(nodes: set<int>, edges: set<(int, int)>, s: seq<int>)
    requires KahnOrder(nodes, edges, s) && Within(edges, nodes)
    ensures NoDup(s) && Elems(s) <= nodes
    ensures forall i, j :: 0 <= i < |s| && 0 <= j < |s| && (s[i], s[j]) in edges ==> i < j
    ensures forall i, j :: 0 <= i < j < |s| && s[j] < s[i] ==> exists k :: i <= k < j && (s[k], s[j]) in edges
    ensures forall n :: n in nodes && n !in s ==> exists m :: m in nodes && m !in s && (m, n) in edges
  {
    hide KahnOrder, LeastReady, NoDup;
    assert Greedy(nodes, edges, s) && forall m :: !Ready(nodes, edges, Elems(s), m) by {
      KahnOrderIsGreedy(nodes, edges, s);
    }
    GreedyNoDup(nodes, edges, s);
    GreedyForward(nodes, edges, s);
    forall i, j | 0 <= i < j < |s| && s[j] < s[i] ensures exists k :: i <= k < j && (s[k], s[j]) in edges {
      SmallerWaits(nodes, edges, s, i, j);
    }
    forall n | n in nodes && n !in s ensures exists m :: m in nodes && m !in s && (m, n) in edges {
      assert !Ready(nodes, edges, Elems(s), n);
      var m :| (m, n) in edges && m !in Elems(s);
      assert m in nodes && m !in s;
    }
  }

  lemma KahnOrderIsGreedy(nodes: set<int>, edges: set<(int, int)>, s: seq<int>)
    requires KahnOrder(nodes, edges, s)
    ensures Greedy(nodes, edges, s) && forall m :: !Ready(nodes, edges, Elems(s), m)
  {
  }

  lemma SmallerWaits(nodes: set<int>, edges: set<(int, int)>, s: seq<int>, i: nat, j: nat)
    requires Greedy(nodes, edges, s) && i < j < |s| && s[j] < s[i]
    ensures exists k :: i <= k < j && (s[k], s[j]) in edges
  {
    GreedyNoDup(nodes, edges, s);
    assert LeastReady(nodes, edges, Elems(s[..i]), s[i]) && LeastReady(nodes, edges, Elems(s[..j]), s[j]);
    assert !Ready(nodes, edges, Elems(s[..i]), s[j]);
    assert s[j] !in Elems(s[..i]);
    var m :| (m, s[j]) in edges && m !in Elems(s[..i]);
    assert m in Elems(s[..j]);
    var k :| 0 <= k < j && s[k] == m;
    forall l | 0 <= l < i ensures s[l] in Elems(s[..i]) {
      assert s[..i][l] == s[l];
    }
  }

  // Restriction to a part of the graph that holds all of its own prerequisites.

  function Restrict(s: seq<int>, part: set<int>): seq<int> {
    if s == [] then []
    else Restrict(s[..|s| - 1], part) + if s[|s| - 1] in part then [s[|s| - 1]] else []
  }

  lemma {:induction false} RestrictElems(s: seq<int>, part: set<int>)
    ensures Elems(Restrict(s, part)) == Elems(s) * part
  {
    if s != [] {
      var front := s[..|s| - 1];
      RestrictElems(front, part);
      assert Elems(s) == Elems(front) + {s[|s| - 1]};
      assert Elems(Restrict(s, part)) ==
        Elems(Restrict(front, part)) + if s[|s| - 1] in part then {s[|s| - 1]} else {};
    }
  }

  ghost predicate HoldsPrerequisites(edges: set<(int, int)>, part: set<int>) {
    forall a, b :: (a, b) in edges && b in part ==> a in part
  }

  ghost function Inside(edges: set<(int, int)>, part: set<int>): set<(int, int)> {
    set e | e in edges && e.0 in part && e.1 in part
  }

  lemma ReadyInPart(nodes: set<int>, edges: set<(int, int)>, part: set<int>, done: set<int>, m: int)
    requires part <= nodes && HoldsPrerequisites(edges, part) && m in part
    ensures Ready(part, Inside(edges, part), done * part, m) <==> Ready(nodes, edges, done, m)
  {
  }

  lemma {:induction false} GreedyInPart(nodes: set<int>, edges: set<(int, int)>, part: set<int>, s: seq<int>)
    requires part <= nodes && HoldsPrerequisites(edges, part) && Greedy(nodes, edges, s)
    ensures Greedy(part, Inside(edges, part), Restrict(s, part))
  {
    if s != [] {
      var front, last := s[..|s| - 1], s[|s| - 1];
      assert s == front + [last];
      GreedyAppend(nodes, edges, front, last);
      GreedyInPart(nodes, edges, part, front);
      if last in part {
        RestrictElems(front, part);
        ReadyInPart(nodes, edges, part, Elems(front), last);
        forall m | Ready(part, Inside(edges, part), Elems(front) * part, m) ensures last <= m {
          ReadyInPart(nodes, edges, part, Elems(front), m);
        }
        GreedyAppend(part, Inside(edges, part), Restrict(front, part), last);
      } else {
        assert Restrict(s, part) == Restrict(front, part);
      }
    }
  }

  /** Ordering a part that holds its own prerequisites gives the subsequence of
      the whole order on that part, whether or not the whole order is complete. */
  lemma KahnOrderInPart(nodes: set<int>, edges: set<(int, int)>, part: set<int>, s: seq<int>)
    requires part <= nodes && HoldsPrerequisites(edges, part) && KahnOrder(nodes, edges, s)
    ensures KahnOrder(part, Inside(edges, part), Restrict(s, part))
  {
    GreedyInPart(nodes, edges, part, s);
    RestrictElems(s, part);
    forall m ensures !Ready(part, Inside(edges, part), Elems(s) * part, m) {
      if m in part {
        ReadyInPart(nodes, edges, part, Elems(s), m);
      }
    }
  }

  // Which pairs every order must keep.

  ghost predicate Before(s: seq<int>, p: int, n: int) {
    exists i, j :: 0 <= i < j < |s| && s[i] == p && s[j] == n
  }

  lemma {:induction false} RestrictOrder(s: seq<int>, part: set<int>)
    requires NoDup(s)
    ensures NoDup(Restrict(s, part))
    ensures forall p, n :: p in part && n in part && Before(s, p, n) ==> Before(Restrict(s, part), p, n)
  {
    if s != [] {
      var front, last := s[..|s| - 1], s[|s| - 1];
      NoDupFront(s);
      RestrictOrder(front, part);
      RestrictElems(front, part);
      var r := Restrict(front, part);
      assert last !in r by { assert last !in Elems(r); }
      assert s == front + [last];
      assert Restrict(s, part) == if last in part then r + [last] else r;
      hide Before, Restrict;
      forall p, n | p in part && n in part && Before(s, p, n) ensures Before(Restrict(s, part), p, n) {
        BeforeAppend(front, last, p, n);
        BeforeAppend(r, last, p, n);
        if n == last && p in Elems(front) {
          assert p in Elems(r);
        }
      }
    }
  }

  lemma BeforeAppend(s: seq<int>, x: int, p: int, n: int)
    ensures Before(s + [x], p, n) <==> Before(s, p, n) || (n == x && p in s)
  {
    var t := s + [x];
    if Before(t, p, n) {
      var i, j :| 0 <= i < j < |t| && t[i] == p && t[j] == n;
    }
    if Before(s, p, n) {
      var i, j :| 0 <= i < j < |s| && s[i] == p && s[j] == n;
      assert t[i] == p && t[j] == n;
    }
    if n == x && p in s {
      var i :| 0 <= i < |s| && s[i] == p;
      assert t[i] == p && t[|s|] == n;
    }
  }

  /** The part that `n` rests on moved to the front. */
  ghost function Hurried(s: seq<int>, part: set<int>): seq<int> {
    Restrict(s, part) + Restrict(s, Elems(s) - part)
  }

  lemma HurriedIsTopological(nodes: set<int>, edges: set<(int, int)>, s: seq<int>, part: set<int>)
    requires Topological(nodes, edges, s) && HoldsPrerequisites(edges, part) && Within(edges, nodes)
    ensures Topological(nodes, edges, Hurried(s, part))
  {
    var rest := Elems(s) - part;
    var a, b, h := Restrict(s, part), Restrict(s, rest), Hurried(s, part);
    RestrictElems(s, part);
    RestrictElems(s, rest);
    RestrictOrder(s, part);
    RestrictOrder(s, rest);
    assert Elems(h) == Elems(a) + Elems(b);
    assert NoDup(h) by {
      forall i, j | 0 <= i < |a| && 0 <= j < |b| ensures a[i] != b[j] {
        assert a[i] in Elems(a) && b[j] in Elems(b);
      }
    }
    forall i, j | 0 <= i < |h| && 0 <= j < |h| && (h[i], h[j]) in edges ensures i < j {
      assert h[i] in Elems(h) && h[j] in Elems(h);
      assert j < |a| ==> h[j] in Elems(a);
      assert i >= |a| ==> h[i] in Elems(b);
      EdgeIsBefore(nodes, edges, s, h[i], h[j]);
      if i < |a| && j < |a| {
        BeforeIsEarlier(a, i, j);
      } else if i >= |a| && j >= |a| {
        BeforeIsEarlier(b, i - |a|, j - |a|);
      }
    }
  }

  lemma EdgeIsBefore(nodes: set<int>, edges: set<(int, int)>, s: seq<int>, p: int, n: int)
    requires Topological(nodes, edges, s) && (p, n) in edges && p in nodes && n in nodes
    ensures Before(s, p, n)
  {
    var i :| 0 <= i < |s| && s[i] == p;
    var j :| 0 <= j < |s| && s[j] == n;
    assert (s[i], s[j]) in edges;
  }

  lemma BeforeIsEarlier(s: seq<int>, i: nat, j: nat)
    requires NoDup(s) && i < |s| && j < |s| && Before(s, s[i], s[j])
    ensures i < j
  {
  }

  lemma {:induction false} PathIsBefore(nodes: set<int>, edges: set<(int, int)>, s: seq<int>, path: seq<int>)
    requires Topological(nodes, edges, s) && Within(edges, nodes) && IsPath(edges, path) && |path| >= 2
    ensures Before(s, path[0], path[|path| - 1])
  {
    var k := |path| - 2;
    assert (path[k], path[k + 1]) in edges;
    EdgeIsBefore(nodes, edges, s, path[k], path[k + 1]);
    if k > 0 {
      PathIsBefore(nodes, edges, s, path[..k + 1]);
      BeforeTrans(s, path[0], path[k], path[k + 1]);
    }
  }

  lemma BeforeTrans(s: seq<int>, a: int, b: int, c: int)
    requires NoDup(s) && Before(s, a, b) && Before(s, b, c)
    ensures Before(s, a, c)
  {
    var i, j :| 0 <= i < j < |s| && s[i] == a && s[j] == b;
    var k, l :| 0 <= k < l < |s| && s[k] == b && s[l] == c;
    assert j == k;
  }

  /** Where an order exists, every order puts `p` before `n` if and only if edges lead
      from `p` to `n`. */
  lemma OrderForcedIff(nodes: set<int>, edges: set<(int, int)>, some: seq<int>, p: int, n: int)
    requires Topological(nodes, edges, some) && Within(edges, nodes) && p in nodes && n in nodes && p != n
    ensures (forall s :: Topological(nodes, edges, s) ==> Before(s, p, n)) <==> Reaches(edges, p, n)
  {
    hide Topological;
    if Reaches(edges, p, n) {
      var path :| PathBetween(edges, path, p, n);
      forall s | Topological(nodes, edges, s) ensures Before(s, p, n) {
        PathIsBefore(nodes, edges, s, path);
      }
    } else {
      var part := set x | x in nodes && Reaches(edges, x, n);
      forall a, b | (a, b) in edges && b in part ensures a in part {
        ReachesFromEdge(edges, a, b, n);
      }
      ReachesSelf(edges, n);
      HurriedIsTopological(nodes, edges, some, part);
      HurriedFirst(nodes, edges, some, part, p, n);
    }
  }

  lemma HurriedFirst(nodes: set<int>, edges: set<(int, int)>, s: seq<int>, part: set<int>, p: int, n: int)
    requires Topological(nodes, edges, s) && n in nodes && n in part && p !in part
    ensures !Before(Hurried(s, part), p, n)
  {
    var rest := Elems(s) - part;
    var a, b, h := Restrict(s, part), Restrict(s, rest), Hurried(s, part);
    RestrictElems(s, part);
    RestrictElems(s, rest);
    forall i | 0 <= i < |a| ensures h[i] != p {
      assert a[i] in Elems(a);
    }
    forall j | 0 <= j < |b| ensures b[j] != n {
      assert b[j] in Elems(b);
    }
  }
}

module Kahn {
  import opened Sequences
  import opened Reachability
  import opened TopologicalOrders

  datatype Outcome = Complete(order: seq<int>) | Partial(order: seq<int>)

  /** Edges into `n`, with multiplicity, whose source is not yet done. */
  ghost function CountInto(es: seq<(int, int)>, done: set<int>, n: int): nat {
    if es == [] then 0
    else
      var e := es[|es| - 1];
      CountInto(es[..|es| - 1], done, n) + if e.1 == n && e.0 !in done then 1 else 0
  }

  function Row(table: map<int, seq<int>>, k: int): seq<int> {
    if k in table then table[k] else []
  }

  /** The in-degree and adjacency tables of the multigraph `es` over `nodes`. */
  ghost predicate Tables(nodes: set<int>, inDegree: map<int, nat>, adj: map<int, seq<int>>, es: seq<(int, int)>) {
    && inDegree.Keys == nodes
    && (forall e :: e in es ==> e.0 in nodes && e.1 in nodes)
    && (forall n :: n in nodes ==> inDegree[n] == CountInto(es, {}, n))
    && (forall k, n :: Count(Row(adj, k), n) == Count(es, (k, n)))
  }

  lemma TablesEmpty(nodes: set<int>, inDegree: map<int, nat>)
    requires inDegree.Keys == nodes && forall n :: n in nodes ==> inDegree[n] == 0
    ensures Tables(nodes, inDegree, map[], [])
  {
  }

  lemma CountIntoAppend(es: seq<(int, int)>, e: (int, int), n: int)
    ensures CountInto(es + [e], {}, n) == CountInto(es, {}, n) + if e.1 == n then 1 else 0
  {
  }

  /** One `adj.entry(p).push(n)` together with one `in_degree[n] += 1`. */
  lemma TablesAdd(nodes: set<int>, inDegree: map<int, nat>, adj: map<int, seq<int>>, es: seq<(int, int)>, p: int,
                  n: int)
    requires Tables(nodes, inDegree, adj, es) && p in nodes && n in nodes
    ensures Tables(nodes, inDegree[n := inDegree[n] + 1], adj[p := Row(adj, p) + [n]], es + [(p, n)])
  {
    hide Count, CountInto;
    var es', adj' := es + [(p, n)], adj[p := Row(adj, p) + [n]];
    forall x ensures CountInto(es', {}, x) == CountInto(es, {}, x) + if n == x then 1 else 0 {
      CountIntoAppend(es, (p, n), x);
    }
    forall k, x ensures Count(Row(adj', k), x) == Count(es', (k, x)) {
      CountAppend(es, (p, n), (k, x));
      CountAppend(Row(adj, p), n, x);
      assert Count(Row(adj, k), x) == Count(es, (k, x));
    }
  }

  lemma {:induction false} CountIntoDrop(es: seq<(int, int)>, done: set<int>, c: int, n: int)
    requires c !in done
    ensures CountInto(es, done, n) == CountInto(es, done + {c}, n) + Count(es, (c, n))
  {
    if es != [] {
      CountIntoDrop(es[..|es| - 1], done, c, n);
    }
  }

  /** All edges into `n` come from `done`. */
  ghost predicate Cleared(edges: set<(int, int)>, done: set<int>, n: int) {
    forall k :: (k, n) in edges ==> k in done
  }

  lemma {:induction false} CountIntoZero(es: seq<(int, int)>, done: set<int>, n: int)
    ensures CountInto(es, done, n) == 0 <==> Cleared(Elems(es), done, n)
  {
    if es != [] {
      var front, e := es[..|es| - 1], es[|es| - 1];
      CountIntoZero(front, done, n);
      assert Elems(es) == Elems(front) + {e};
      var (k, m) := e;
      assert (k, m) in {e};
      assert Cleared({e}, done, n) <==> !(m == n && k !in done);
      assert Cleared(Elems(es), done, n) <==> Cleared(Elems(front), done, n) && Cleared({e}, done, n);
    }
  }

  lemma {:induction false} CountPrefix(s: seq<int>, i: nat, x: int)
    requires i <= |s|
    ensures Count(s[..i], x) <= Count(s, x)
  {
    if i < |s| {
      var front := s[..|s| - 1];
      CountPrefix(front, i, x);
      assert front[..i] == s[..i];
    } else {
      assert s[..i] == s;
    }
  }

  ghost predicate QueueHoldsZeros(queue: seq<int>, inDegree: map<int, nat>) {
    && NoDup(queue)
    && forall n :: n in queue <==> n in inDegree && inDegree[n] == 0
  }

  /** The inner loop: lower the in-degree of every dependent, queue those that
      reach zero, keep the unread part of the queue sorted. */
  method Relax(dependents: seq<int>, inDegree: map<int, nat>, queue: seq<int>, head: nat)
    returns (degrees: map<int, nat>, q: seq<int>)
    requires head <= |queue| && Sorted(queue[head..]) && QueueHoldsZeros(queue, inDegree)
    requires forall d :: d in dependents ==> d in inDegree && Count(dependents, d) <= inDegree[d]
    ensures degrees.Keys == inDegree.Keys
    ensures forall n :: n in inDegree ==> degrees[n] == inDegree[n] - Count(dependents, n)
    ensures head <= |q| && q[..head] == queue[..head] && Sorted(q[head..])
    ensures QueueHoldsZeros(q, degrees)
  {
    degrees, q := inDegree, queue;
    CountNoneForAll(inDegree.Keys);
    for i := 0 to |dependents|
      invariant degrees.Keys == inDegree.Keys
      invariant forall n :: n in inDegree ==> degrees[n] == inDegree[n] - Count(dependents[..i], n)
      invariant head <= |q| && q[..head] == queue[..head] && Sorted(q[head..])
      invariant QueueHoldsZeros(q, degrees)
    {
      var dep := dependents[i];
      forall n ensures Count(dependents[..i + 1], n) == Count(dependents[..i], n) + if n == dep then 1 else 0 {
        CountExtend(dependents, i, n);
      }
      CountPrefix(dependents, i + 1, dep);
      degrees := degrees[dep := degrees[dep] - 1];
      if degrees[dep] == 0 {
        q := Resort(q + [dep], head);
      }
    }
    assert dependents[..|dependents|] == dependents;
  }

  lemma CountNoneForAll(keys: set<int>)
    ensures forall n :: n in keys ==> Count<int>([], n) == 0
  {
  }

  /** `queue[head..].sort_unstable()`. */
  method Resort(queue: seq<int>, head: nat) returns (q: seq<int>)
    requires head <= |queue| && NoDup(queue)
    ensures |q| == |queue| && q[..head] == queue[..head] && Sorted(q[head..])
    ensures NoDup(q) && Elems(q) == Elems(queue)
    ensures forall x :: x in q <==> x in queue
  {
    var tail := queue[head..];
    q := queue[..head] + Sort(tail);
    assert queue == queue[..head] + tail;
    assert multiset(q) == multiset(queue);
    SameMultisetElems(queue, q);
    SameMultisetElems(tail, Sort(tail));
    assert forall x :: x in q <==> x in Elems(q);
  }

  /** Every in-degree of zero, sorted: the initial queue. */
  method ZeroDegrees(inDegree: map<int, nat>) returns (queue: seq<int>)
    ensures Sorted(queue) && QueueHoldsZeros(queue, inDegree)
  {
    var keys := Enumerate(inDegree.Keys);
    queue := [];
    for i := 0 to |keys|
      invariant NoDup(queue)
      invariant forall n :: n in queue <==> n in keys[..i] && inDegree[n] == 0
    {
      if inDegree[keys[i]] == 0 {
        queue := queue + [keys[i]];
      }
    }
    queue := Resort(queue, 0);
  }

  /** Where the loop stands: the queue read so far is a greedy order, the in-degrees
      count the edges from the rest, and the queue holds the nodes at zero. */
  ghost predicate Sorting(nodes: set<int>, es: seq<(int, int)>, inDegree: map<int, nat>, queue: seq<int>, head: nat) {
    && head <= |queue| && inDegree.Keys == nodes
    && Sorted(queue[head..]) && QueueHoldsZeros(queue, inDegree)
    && (forall n :: n in nodes ==> inDegree[n] == CountInto(es, Elems(queue[..head]), n))
    && Greedy(nodes, Elems(es), queue[..head])
  }

  lemma SortingStarts(nodes: set<int>, es: seq<(int, int)>, inDegree: map<int, nat>, adj: map<int, seq<int>>,
                      queue: seq<int>)
    requires Tables(nodes, inDegree, adj, es) && Sorted(queue) && QueueHoldsZeros(queue, inDegree)
    ensures Sorting(nodes, es, inDegree, queue, 0)
  {
    hide CountInto, Count;
    assert queue[0..] == queue && Elems(queue[..0]) == {};
  }

  lemma SortingBounded(nodes: set<int>, es: seq<(int, int)>, inDegree: map<int, nat>, queue: seq<int>, head: nat)
    requires Sorting(nodes, es, inDegree, queue, head)
    ensures head <= |queue| <= |nodes| && inDegree.Keys == nodes
  {
    hide CountInto, Greedy, Sorted;
    forall x | x in Elems(queue) ensures x in nodes {
      assert x in queue;
    }
    NoDupLength(queue, nodes);
  }

  /** The node at the head is taken, and its edges are still to be relaxed. */
  ghost predicate Taken(nodes: set<int>, es: seq<(int, int)>, inDegree: map<int, nat>, queue: seq<int>, head: nat,
                        row: seq<int>) {
    && 0 < head <= |queue| && inDegree.Keys == nodes
    && Sorted(queue[head..]) && QueueHoldsZeros(queue, inDegree)
    && (forall n :: n in nodes ==> inDegree[n] == CountInto(es, Elems(queue[..head]), n) + Count(row, n))
    && (forall d :: d in row ==> d in nodes)
    && Greedy(nodes, Elems(es), queue[..head])
  }

  lemma SortingTakes(nodes: set<int>, es: seq<(int, int)>, inDegree0: map<int, nat>, adj: map<int, seq<int>>,
                     inDegree: map<int, nat>, queue: seq<int>, head: nat)
    requires Tables(nodes, inDegree0, adj, es) && Sorting(nodes, es, inDegree, queue, head) && head < |queue|
    ensures Taken(nodes, es, inDegree, queue, head + 1, Row(adj, queue[head]))
  {
    hide CountInto, Count, LeastReady, Greedy, QueueHoldsZeros, Sorted;
    var done, current := Elems(queue[..head]), queue[head];
    ReadyIsQueued(nodes, inDegree, es, queue, head);
    GreedyAppend(nodes, Elems(es), queue[..head], current);
    assert queue[..head + 1] == queue[..head] + [current];
    ElemsAppend(queue[..head], current);
    HeadIsNew(queue, head, inDegree);
    forall n | n in nodes
      ensures inDegree[n] == CountInto(es, Elems(queue[..head + 1]), n) + Count(Row(adj, current), n)
    {
      CountIntoDrop(es, done, current, n);
    }
    forall d | d in Row(adj, current) ensures d in nodes {
      CountPositive(Row(adj, current), d);
      CountPositive(es, (current, d));
    }
    SortedTail(queue, head);
  }

  lemma HeadIsNew(queue: seq<int>, head: nat, inDegree: map<int, nat>)
    requires head < |queue| && QueueHoldsZeros(queue, inDegree)
    ensures queue[head] !in Elems(queue[..head])
  {
  }

  lemma SortedTail(queue: seq<int>, head: nat)
    requires head < |queue| && Sorted(queue[head..])
    ensures Sorted(queue[head + 1..])
  {
    var tail := queue[head..];
    assert queue[head + 1..] == tail[1..];
  }

  /** Relaxing a row that fits the in-degrees, and what it leaves. */
  lemma TakenFits(nodes: set<int>, es: seq<(int, int)>, inDegree: map<int, nat>, queue: seq<int>, head: nat,
                  row: seq<int>)
    requires Taken(nodes, es, inDegree, queue, head, row)
    ensures head <= |queue| && Sorted(queue[head..]) && QueueHoldsZeros(queue, inDegree)
    ensures forall d :: d in row ==> d in inDegree && Count(row, d) <= inDegree[d]
  {
    hide CountInto, Count, Greedy, Sorted, QueueHoldsZeros;
  }

  lemma SortingResumes(nodes: set<int>, es: seq<(int, int)>, inDegree: map<int, nat>, queue: seq<int>, head: nat,
                       row: seq<int>, degrees: map<int, nat>, q: seq<int>)
    requires Taken(nodes, es, inDegree, queue, head, row) && degrees.Keys == inDegree.Keys
    requires forall n :: n in inDegree ==> degrees[n] == inDegree[n] - Count(row, n)
    requires head <= |q| && q[..head] == queue[..head] && Sorted(q[head..]) && QueueHoldsZeros(q, degrees)
    ensures Sorting(nodes, es, degrees, q, head)
  {
    hide CountInto, Count, Greedy, Sorted, QueueHoldsZeros;
  }

  lemma SortingSkips(nodes: set<int>, es: seq<(int, int)>, inDegree: map<int, nat>, queue: seq<int>, head: nat)
    requires Taken(nodes, es, inDegree, queue, head, [])
    ensures Sorting(nodes, es, inDegree, queue, head)
  {
    hide CountInto, Greedy, Sorted, QueueHoldsZeros;
    CountNoneForAll(nodes);
  }

  /** With the queue read to its end, it is the Kahn order. */
  lemma SortingEnds(nodes: set<int>, es: seq<(int, int)>, inDegree: map<int, nat>, queue: seq<int>)
    requires Sorting(nodes, es, inDegree, queue, |queue|)
    ensures KahnOrder(nodes, Elems(es), queue) && Elems(queue) <= nodes && |queue| == |Elems(queue)|
  {
    hide CountInto, Greedy, Sorted, Cleared;
    assert queue[..|queue|] == queue;
    forall m ensures !Ready(nodes, Elems(es), Elems(queue), m) {
      if m in nodes {
        CountIntoZero(es, Elems(queue), m);
        ClearedIsReady(nodes, Elems(es), Elems(queue), m);
      }
    }
    forall x | x in Elems(queue) ensures x in nodes {
      assert x in queue;
    }
    NoDupCardinality(queue);
  }

  lemma ClearedIsReady(nodes: set<int>, edges: set<(int, int)>, done: set<int>, m: int)
    ensures Ready(nodes, edges, done, m) <==> m in nodes && m !in done && Cleared(edges, done, m)
  {
  }

  /** Kahn's algorithm on prepared tables. */
  method KahnSort(inDegree0: map<int, nat>, adj: map<int, seq<int>>, total: nat,
                  ghost nodes: set<int>, ghost es: seq<(int, int)>) returns (r: Outcome)
    requires Tables(nodes, inDegree0, adj, es) && total == |nodes|
    ensures KahnOrder(nodes, Elems(es), r.order)
    ensures r.Complete? <==> Acyclic(Elems(es))
    ensures r.Complete? ==> LeastTopological(nodes, Elems(es), r.order)
    ensures forall n :: n in nodes ==> (n !in r.order <==> BehindCycle(Elems(es), n))
    // In the rows of the adjacency table: dependents come later, a smaller node comes
    // later only while it waits, and a node is left out only behind one left out.
    ensures NoDup(r.order) && Elems(r.order) <= nodes && (r.Complete? <==> Elems(r.order) == nodes)
    ensures forall i, j :: 0 <= i < |r.order| && 0 <= j < |r.order| && r.order[j] in Row(adj, r.order[i]) ==> i < j
    ensures forall i, j :: 0 <= i < j < |r.order| && r.order[j] < r.order[i] ==>
              exists k :: i <= k < j && r.order[j] in Row(adj, r.order[k])
    ensures forall n :: n in nodes && n !in r.order ==> exists m :: m in nodes && m !in r.order && n in Row(adj, m)
  {
    hide Sorting, Taken, Tables, Count, BehindCycle, Acyclic, LeastTopological, KahnOrder;
    var inDegree := inDegree0;
    var queue := ZeroDegrees(inDegree);
    hide QueueHoldsZeros, Sorted, NoDup, Elems;
    var order: seq<int> := [];
    var head := 0;
    SortingStarts(nodes, es, inDegree, adj, queue);
    SortingBounded(nodes, es, inDegree, queue, head);
    while head < |queue|
      invariant head <= |queue| <= |nodes| && order == queue[..head]
      invariant Sorting(nodes, es, inDegree, queue, head)
      decreases |nodes| - head
    {
      var current := queue[head];
      SortingTakes(nodes, es, inDegree0, adj, inDegree, queue, head);
      assert queue[..head + 1] == order + [current];
      head := head + 1;
      order := order + [current];
      if current in adj {
        TakenFits(nodes, es, inDegree, queue, head, adj[current]);
        var degrees, q := Relax(adj[current], inDegree, queue, head);
        SortingResumes(nodes, es, inDegree, queue, head, adj[current], degrees, q);
        inDegree, queue := degrees, q;
      } else {
        SortingSkips(nodes, es, inDegree, queue, head);
      }
      SortingBounded(nodes, es, inDegree, queue, head);
    }
    assert queue[..head] == queue;
    SortingEnds(nodes, es, inDegree, queue);
    SortingMeans(nodes, inDegree0, adj, es, order);
    return if |order| != total then Partial(order) else Complete(order);
  }

  /** What the order that the loop ends with is worth. */
  lemma SortingMeans(nodes: set<int>, inDegree: map<int, nat>, adj: map<int, seq<int>>, es: seq<(int, int)>,
                     order: seq<int>)
    requires Tables(nodes, inDegree, adj, es) && KahnOrder(nodes, Elems(es), order)
    requires Elems(order) <= nodes && |order| == |Elems(order)|
    ensures |order| == |nodes| <==> Acyclic(Elems(es))
    ensures |order| == |nodes| <==> Elems(order) == nodes
    ensures |order| == |nodes| ==> LeastTopological(nodes, Elems(es), order)
    ensures forall n :: n in nodes ==> (n !in order <==> BehindCycle(Elems(es), n))
    ensures NoDup(order)
    ensures forall i, j :: 0 <= i < |order| && 0 <= j < |order| && order[j] in Row(adj, order[i]) ==> i < j
    ensures forall i, j :: 0 <= i < j < |order| && order[j] < order[i] ==>
              exists k :: i <= k < j && order[j] in Row(adj, order[k])
    ensures forall n :: n in nodes && n !in order ==> exists m :: m in nodes && m !in order && n in Row(adj, m)
  {
    hide Tables, BehindCycle, Acyclic, LeastTopological, KahnOrder, NoDup, Row;
    var edges := Elems(es);
    TablesWithin(nodes, inDegree, adj, es);
    KahnCompleteIffAcyclic(nodes, edges, order);
    forall n | n in nodes ensures n !in order <==> BehindCycle(edges, n) {
      KahnMissing(nodes, edges, order, n);
    }
    SameSize(Elems(order), nodes);
    if Elems(order) == nodes {
      KahnOrderIsLeast(nodes, edges, order);
    }
    KahnOrderMeans(nodes, edges, order);
    TablesRows(nodes, inDegree, adj, es);
  }

  lemma SameSize(part: set<int>, all: set<int>)
    requires part <= all
    ensures |part| == |all| <==> part == all
  {
    if part != all {
      CardinalityDrops(part, all);
    }
  }

  lemma TablesRows(nodes: set<int>, inDegree: map<int, nat>, adj: map<int, seq<int>>, es: seq<(int, int)>)
    requires Tables(nodes, inDegree, adj, es)
    ensures forall k, n :: n in Row(adj, k) <==> (k, n) in Elems(es)
  {
    hide Count, CountInto, Row;
    forall k, n ensures n in Row(adj, k) <==> (k, n) in Elems(es) {
      CountPositive(Row(adj, k), n);
      CountPositive(es, (k, n));
      assert Count(Row(adj, k), n) == Count(es, (k, n));
    }
  }

  lemma TablesWithin(nodes: set<int>, inDegree: map<int, nat>, adj: map<int, seq<int>>, es: seq<(int, int)>)
    requires Tables(nodes, inDegree, adj, es)
    ensures Within(Elems(es), nodes)
  {
  }

  /** The unread part of the queue is the set of ready nodes. */
  lemma ReadyIsQueued(nodes: set<int>, inDegree: map<int, nat>, es: seq<(int, int)>, queue: seq<int>, head: nat)
    requires head < |queue| && inDegree.Keys == nodes
    requires Sorted(queue[head..]) && QueueHoldsZeros(queue, inDegree)
    requires forall n :: n in nodes ==> inDegree[n] == CountInto(es, Elems(queue[..head]), n)
    ensures LeastReady(nodes, Elems(es), Elems(queue[..head]), queue[head])
  {
    var done := Elems(queue[..head]);
    var tail := queue[head..];
    assert forall k :: 0 <= k < head ==> queue[..head][k] in done;
    CountIntoZero(es, done, queue[head]);
    forall m | Ready(nodes, Elems(es), done, m) ensures queue[head] <= m {
      CountIntoZero(es, done, m);
      var i :| 0 <= i < |queue| && queue[i] == m;
      assert tail[0] == queue[head] && tail[i - head] == m;
    }
    assert queue[head] !in done;
  }
}
