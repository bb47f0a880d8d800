/** Reachability in a finite directed graph given by its set of edges. Every
    traversal in this project is specified by this one relation. */
module Reachability {

  ghost predicate IsPath<T>(edges: set<(T, T)>, p: seq<T>) {
    |p| > 0 && forall i :: 0 <= i < |p| - 1 ==> (p[i], p[i + 1]) in edges
  }

  ghost predicate PathBetween<T>(edges: set<(T, T)>, p: seq<T>, a: T, b: T) {
    IsPath(edges, p) && p[0] == a && p[|p| - 1] == b
  }

  /** Reflexive, transitive reachability. */
  ghost predicate Reaches<T(!new)>(edges: set<(T, T)>, a: T, b: T) {
    exists p :: PathBetween(edges, p, a, b)
  }

  ghost predicate Closed<T(!new)>(edges: set<(T, T)>, s: set<T>) {
    forall a, b :: (a, b) in edges && a in s ==> b in s
  }

  ghost predicate OnCycle<T(!new)>(edges: set<(T, T)>, a: T) {
    exists b :: (a, b) in edges && Reaches(edges, b, a)
  }

  ghost predicate Acyclic<T(!new)>(edges: set<(T, T)>) {
    forall a :: !OnCycle(edges, a)
  }

  lemma ReachesSelf<T(!new)>(edges: set<(T, T)>, a: T)
    ensures Reaches(edges, a, a)
  {
    assert PathBetween(edges, [a], a, a);
  }

  lemma ReachesTrans<T(!new)>(edges: set<(T, T)>, a: T, b: T, c: T)
    requires Reaches(edges, a, b) && Reaches(edges, b, c)
    ensures Reaches(edges, a, c)
  {
    var p :| PathBetween(edges, p, a, b);
    var q :| PathBetween(edges, q, b, c);
    var r := p + q[1..];
    forall i | 0 <= i < |r| - 1 ensures (r[i], r[i + 1]) in edges {
      if i >= |p| - 1 {
        assert r[i] == q[i - (|p| - 1)];
        assert r[i + 1] == q[i - (|p| - 1) + 1];
      }
    }
    assert PathBetween(edges, r, a, c);
  }

  lemma ReachesEdge<T(!new)>(edges: set<(T, T)>, a: T, b: T)
    requires (a, b) in edges
    ensures Reaches(edges, a, b)
  {
    assert PathBetween(edges, [a, b], a, b);
  }

  lemma ReachesStep<T(!new)>(edges: set<(T, T)>, a: T, b: T, c: T)
    requires Reaches(edges, a, b) && (b, c) in edges
    ensures Reaches(edges, a, c)
  {
    ReachesEdge(edges, b, c);
    ReachesTrans(edges, a, b, c);
  }

  lemma ReachesFromEdge<T(!new)>(edges: set<(T, T)>, a: T, b: T, c: T)
    requires (a, b) in edges && Reaches(edges, b, c)
    ensures Reaches(edges, a, c)
  {
    ReachesEdge(edges, a, b);
    ReachesTrans(edges, a, b, c);
  }

  /** A set closed under the edges holds everything its members reach. */
  lemma ClosedHolds<T(!new)>(edges: set<(T, T)>, s: set<T>, a: T, b: T)
    requires Closed(edges, s) && a in s && Reaches(edges, a, b)
    ensures b in s
  {
    var p :| PathBetween(edges, p, a, b);
    for i := 1 to |p|
      invariant forall j :: 0 <= j < i ==> p[j] in s
    {
      assert (p[i - 1], p[i - 1 + 1]) in edges;
    }
  }

  /** A set that holds the source of every edge into it holds everything that
      reaches one of its members. */
  lemma BackwardClosedHolds<T(!new)>(edges: set<(T, T)>, s: set<T>, a: T, b: T)
    requires (forall x, y :: (x, y) in edges && y in s ==> x in s) && b in s && Reaches(edges, a, b)
    ensures a in s
  {
    var p :| PathBetween(edges, p, a, b);
    for i := |p| - 1 downto 0
      invariant p[i] in s
    {
      assert (p[i], p[i + 1]) in edges;
    }
  }

  /** Inside a closed set a path is one of any edges that include those inside it. */
  lemma ReachesInto<T(!new)>(edges: set<(T, T)>, other: set<(T, T)>, s: set<T>, a: T, b: T)
    requires Closed(edges, s) && a in s && Reaches(edges, a, b)
    requires forall x, y :: (x, y) in edges && x in s ==> (x, y) in other
    ensures Reaches(other, a, b)
  {
    var p :| PathBetween(edges, p, a, b);
    for i := 1 to |p|
      invariant p[i - 1] in s
      invariant forall j :: 0 <= j < i - 1 ==> (p[j], p[j + 1]) in other
    {
      assert (p[i - 1], p[i - 1 + 1]) in edges;
    }
    assert PathBetween(other, p, a, b);
  }

  lemma FirstStep<T(!new)>(edges: set<(T, T)>, a: T, b: T) returns (c: T)
    requires Reaches(edges, a, b) && a != b
    ensures (a, c) in edges && Reaches(edges, c, b)
  {
    var p :| PathBetween(edges, p, a, b);
    assert (p[0], p[0 + 1]) in edges;
    c := p[1];
    var q := p[1..];
    forall i | 0 <= i < |q| - 1 ensures (q[i], q[i + 1]) in edges {
      assert (p[i + 1], p[i + 1 + 1]) in edges;
    }
    assert PathBetween(edges, q, c, b);
  }

  lemma LastStep<T(!new)>(edges: set<(T, T)>, a: T, b: T) returns (c: T)
    requires Reaches(edges, a, b) && a != b
    ensures Reaches(edges, a, c) && (c, b) in edges
  {
    var p :| PathBetween(edges, p, a, b);
    var q := p[..|p| - 1];
    c := q[|q| - 1];
    assert (p[|p| - 2], p[|p| - 2 + 1]) in edges;
    assert PathBetween(edges, q, a, c);
  }

  lemma ReachesMonotone<T(!new)>(edges: set<(T, T)>, more: set<(T, T)>, a: T, b: T)
    requires edges <= more && Reaches(edges, a, b)
    ensures Reaches(more, a, b)
  {
    var p :| PathBetween(edges, p, a, b);
    assert PathBetween(more, p, a, b);
  }

  ghost predicate Preceded<T(!new)>(edges: set<(T, T)>, s: set<T>, x: T) {
    exists y :: y in s && (y, x) in edges
  }

  /** In a finite set whose members all have a predecessor inside the set, every
      member lies on or downstream of a cycle. */
  lemma {:induction false} PredecessorsForceCycle<T(!new)>(edges: set<(T, T)>, s: set<T>, m: T) returns (c: T)
    requires m in s
    requires forall x :: x in s ==> Preceded(edges, s, x)
    ensures c in s && OnCycle(edges, c) && Reaches(edges, c, m)
    decreases |s|
  {
    hide Reaches, OnCycle, Preceded;
    if OnCycle(edges, m) {
      ReachesSelf(edges, m);
      return m;
    }
    NotOnCycle(edges, m);
    var above := set x | x in s && x != m && Reaches(edges, x, m);
    var y := Predecessor(edges, s, m);
    ReachesEdge(edges, y, m);
    ReachesSelf(edges, m);
    forall x | x in above ensures Preceded(edges, above, x) {
      var z := Predecessor(edges, s, x);
      ReachesFromEdge(edges, z, x, m);
      assert z != m;
      PrecededBy(edges, above, z, x);
    }
    assert above < s;
    CardinalityDrops(above, s);
    c := PredecessorsForceCycle(edges, above, y);
    ReachesTrans(edges, c, y, m);
  }

  lemma Predecessor<T(!new)>(edges: set<(T, T)>, s: set<T>, x: T) returns (y: T)
    requires Preceded(edges, s, x)
    ensures y in s && (y, x) in edges
  {
    y :| y in s && (y, x) in edges;
  }

  lemma PrecededBy<T(!new)>(edges: set<(T, T)>, s: set<T>, y: T, x: T)
    requires y in s && (y, x) in edges
    ensures Preceded(edges, s, x)
  {
  }

  lemma SomeCycle<T(!new)>(edges: set<(T, T)>) returns (a: T)
    requires !Acyclic(edges)
    ensures OnCycle(edges, a)
  {
    a :| OnCycle(edges, a);
  }

  /** A cycle is a set whose members all have a predecessor inside the set. */
  lemma CycleIsPreceded<T(!new)>(edges: set<(T, T)>, all: set<T>, a: T) returns (s: set<T>)
    requires OnCycle(edges, a) && forall e :: e in edges ==> e.0 in all && e.1 in all
    ensures a in s && s <= all && forall x :: x in s ==> Preceded(edges, s, x)
  {
    hide Reaches, Preceded;
    s := set x | x in all && Reaches(edges, a, x) && Reaches(edges, x, a);
    ReachesSelf(edges, a);
    var b :| (a, b) in edges && Reaches(edges, b, a);
    ReachesEdge(edges, a, b);
    forall x | x in s ensures Preceded(edges, s, x) {
      var from := if x == a then b else a;
      ReachesTrans(edges, a, from, x);
      if from == x {
        PrecededBy(edges, s, a, x);
      } else {
        var c := LastStep(edges, from, x);
        ReachesTrans(edges, a, from, c);
        ReachesFromEdge(edges, c, x, a);
        PrecededBy(edges, s, c, x);
      }
    }
  }

  lemma NotOnCycle<T(!new)>(edges: set<(T, T)>, m: T)
    requires !OnCycle(edges, m)
    ensures forall b :: (m, b) in edges ==> !Reaches(edges, b, m)
  {
  }

  lemma CardinalityDrops<T>(a: set<T>, b: set<T>)
    requires a < b
    ensures |a| < |b|
  {
    assert b == a + (b - a);
    assert b - a != {};
  }
}
