/** The order in which the stack walk of src/dag/src/dep_graph.rs, `dependents_of`,
    lists what it reaches, and how near to its start that is. */
module Listings {
  import opened Sequences
  import opened Reachability

  ghost function Successors(edges: set<(int, int)>, x: int): set<int> {
    set e | e in edges && e.0 == x :: e.1
  }

  /** `r` lists what the nodes on `stack` lead to beyond `seen`: the top node lists its
      new successors, in some order, and they go on the stack in its place. */
  ghost predicate Lists(edges: set<(int, int)>, stack: seq<int>, seen: set<int>, r: seq<int>)
    decreases |r|, |stack|
  {
    if stack == [] then r == []
    else
      var below, x := stack[..|stack| - 1], stack[|stack| - 1];
      var new' := Successors(edges, x) - seen;
      var k := |new'|;
      && k <= |r| && NoDup(r[..k]) && Elems(r[..k]) == new'
      && Lists(edges, below + r[..k], seen + new', r[k..])
  }

  /** One expansion, read backwards: a batch in front of what its stack lists. */
  lemma ListsBatch(edges: set<(int, int)>, below: seq<int>, x: int, seen: set<int>, batch: seq<int>, rest: seq<int>)
    requires NoDup(batch) && Elems(batch) == Successors(edges, x) - seen
    requires Lists(edges, below + batch, seen + Elems(batch), rest)
    ensures Lists(edges, below + [x], seen, batch + rest)
  {
    hide NoDup, Successors;
    var stack, r := below + [x], batch + rest;
    NoDupCardinality(batch);
    assert stack[..|stack| - 1] == below && r[..|batch|] == batch && r[|batch|..] == rest;
  }

  lemma ListsUnfold(edges: set<(int, int)>, below: seq<int>, x: int, seen: set<int>, r: seq<int>) returns (k: nat)
    requires Lists(edges, below + [x], seen, r)
    ensures k == |Successors(edges, x) - seen| <= |r|
    ensures NoDup(r[..k]) && Elems(r[..k]) == Successors(edges, x) - seen
    ensures Lists(edges, below + r[..k], seen + Elems(r[..k]), r[k..])
  {
    hide NoDup, Successors;
    assert (below + [x])[..|below|] == below;
    k := |Successors(edges, x) - seen|;
  }

  /** Whatever completes the list from here completes it from the start. */
  ghost predicate Continues(edges: set<(int, int)>, start: int, stack: seq<int>, seen: set<int>, r: seq<int>) {
    forall rest :: Lists(edges, stack, seen, rest) ==> Lists(edges, [start], {start}, r + rest)
  }

  lemma ContinuesStart(edges: set<(int, int)>, start: int)
    ensures Continues(edges, start, [start], {start}, [])
  {
    hide Lists;
    assert forall rest: seq<int> :: [] + rest == rest;
  }

  lemma ContinuesBatch(edges: set<(int, int)>, start: int, below: seq<int>, x: int, seen: set<int>, r: seq<int>,
                       batch: seq<int>)
    requires Continues(edges, start, below + [x], seen, r)
    requires NoDup(batch) && Elems(batch) == Successors(edges, x) - seen
    ensures Continues(edges, start, below + batch, seen + Elems(batch), r + batch)
  {
    hide Lists, NoDup, Successors;
    forall rest | Lists(edges, below + batch, seen + Elems(batch), rest)
      ensures Lists(edges, [start], {start}, r + batch + rest)
    {
      ListsBatch(edges, below, x, seen, batch, rest);
      assert r + batch + rest == r + (batch + rest);
    }
  }

  lemma ContinuesEnd(edges: set<(int, int)>, start: int, seen: set<int>, r: seq<int>)
    requires Continues(edges, start, [], seen, r)
    ensures Lists(edges, [start], {start}, r)
  {
    assert r + [] == r;
    assert Lists(edges, [], seen, []);
  }

  // What the order guarantees

  /** The other successors of `start` are a prefix of the list. */
  ghost predicate ParentsFirst(edges: set<(int, int)>, start: int, r: seq<int>) {
    var k := |Successors(edges, start) - {start}|;
    k <= |r| && Elems(r[..k]) == Successors(edges, start) - {start}
  }

  /** The start's own successors come first, on any graph. */
  lemma DirectFirst(edges: set<(int, int)>, start: int, r: seq<int>)
    requires Lists(edges, [start], {start}, r)
    ensures ParentsFirst(edges, start, r)
  {
    hide Lists;
    assert [] + [start] == [start];
    var k := ListsUnfold(edges, [], start, {start}, r);
  }

  ghost predicate HasParent(edges: set<(int, int)>, seen: set<int>, before: seq<int>, y: int) {
    exists p :: (p in seen || p in before) && (p, y) in edges
  }

  /** A parent of each entry has been seen, or is listed before it. */
  ghost predicate Discovered(edges: set<(int, int)>, seen: set<int>, r: seq<int>) {
    forall i: nat :: i < |r| ==> HasParent(edges, seen, r[..i], r[i])
  }

  lemma DiscoveredBatch(edges: set<(int, int)>, seen: set<int>, x: int, batch: seq<int>, rest: seq<int>)
    requires x in seen && (forall y :: y in batch ==> (x, y) in edges)
    requires Discovered(edges, seen + Elems(batch), rest)
    ensures Discovered(edges, seen, batch + rest)
  {
    var r, k := batch + rest, |batch|;
    forall i: nat | i < |r| ensures HasParent(edges, seen, r[..i], r[i]) {
      var y := r[i];
      if i < k {
        assert y == batch[i];
        assert (x, y) in edges;
      } else {
        assert y == rest[i - k] && r[..i] == batch + rest[..i - k];
        assert HasParent(edges, seen + Elems(batch), rest[..i - k], y);
        var p :| (p in seen + Elems(batch) || p in rest[..i - k]) && (p, y) in edges;
        assert p in seen || p in r[..i];
      }
    }
  }

  lemma ListsEmpty(edges: set<(int, int)>, seen: set<int>, r: seq<int>)
    requires Lists(edges, [], seen, r)
    ensures r == []
  {
  }

  lemma {:induction false} ListsDiscovers(edges: set<(int, int)>, stack: seq<int>, seen: set<int>, r: seq<int>)
    requires Lists(edges, stack, seen, r) && forall x :: x in stack ==> x in seen
    ensures Discovered(edges, seen, r)
    decreases |r|, |stack|
  {
    hide Lists, HasParent, NoDup;
    if stack == [] {
      ListsEmpty(edges, seen, r);
    } else {
      var below, x := stack[..|stack| - 1], stack[|stack| - 1];
      assert stack == below + [x];
      var k := ListsUnfold(edges, below, x, seen, r);
      var batch, rest := r[..k], r[k..];
      assert r == batch + rest;
      ListsDiscovers(edges, below + batch, seen + Elems(batch), rest);
      forall y | y in batch ensures (x, y) in edges {
        assert y in Elems(batch);
      }
      DiscoveredBatch(edges, seen, x, batch, rest);
    }
  }

  /** At most one edge leaves any node. */
  ghost predicate SingleParent(edges: set<(int, int)>) {
    forall a, b, c :: (a, b) in edges && (a, c) in edges ==> b == c
  }

  ghost predicate Within(edges: set<(int, int)>, a: int, b: int, n: nat) {
    exists p :: PathBetween(edges, p, a, b) && |p| <= n + 1
  }

  /** No entry is farther from the start than a later one. */
  ghost predicate NearestFirst(edges: set<(int, int)>, start: int, r: seq<int>) {
    forall i, j, n: nat :: 0 <= i < j < |r| && Within(edges, start, r[j], n) ==> Within(edges, start, r[i], n)
  }

  lemma OtherIsNoParent(edges: set<(int, int)>, a: int, b: int, c: int)
    requires SingleParent(edges) && (a, b) in edges && b != c
    ensures (a, c) !in edges
  {
  }

  /** With single parents the list follows the one path there is. */
  lemma {:induction false} ListIsChain(edges: set<(int, int)>, start: int, r: seq<int>, i: nat)
    requires SingleParent(edges) && Discovered(edges, {start}, r) && NoDup([start] + r) && i < |r|
    ensures (([start] + r)[i], r[i]) in edges
    decreases i
  {
    hide SingleParent;
    var chain, y := [start] + r, r[i];
    forall m: nat | m < i ensures (chain[m], y) !in edges {
      ListIsChain(edges, start, r, m);
      assert chain[m + 1] != chain[i + 1];
      OtherIsNoParent(edges, chain[m], r[m], y);
    }
    assert chain[..i + 1] == [start] + r[..i];
    ParentInChain(edges, start, r[..i], chain[..i + 1], y);
  }

  lemma ParentInChain(edges: set<(int, int)>, start: int, before: seq<int>, chain: seq<int>, y: int)
    requires HasParent(edges, {start}, before, y) && chain == [start] + before
    requires forall m: nat | m < |chain| - 1 :: (chain[m], y) !in edges
    ensures (chain[|chain| - 1], y) in edges
  {
    var p :| (p in {start} || p in before) && (p, y) in edges;
    assert p in chain;
    var m :| 0 <= m < |chain| && chain[m] == p;
  }

  lemma PathFollowsChain(edges: set<(int, int)>, start: int, r: seq<int>, path: seq<int>, k: nat)
    requires SingleParent(edges) && Discovered(edges, {start}, r) && NoDup([start] + r)
    requires IsPath(edges, path) && path[0] == start && k < |path| && k <= |r|
    ensures path[k] == ([start] + r)[k]
  {
    if k > 0 {
      PathFollowsChain(edges, start, r, path, k - 1);
      ListIsChain(edges, start, r, k - 1);
      assert (path[k - 1], path[k - 1 + 1]) in edges;
    }
  }

  lemma ChainIsNearestFirst(edges: set<(int, int)>, start: int, r: seq<int>)
    requires SingleParent(edges) && Discovered(edges, {start}, r) && NoDup([start] + r)
    ensures NearestFirst(edges, start, r)
  {
    hide SingleParent, Discovered, IsPath;
    var chain := [start] + r;
    forall i, j, n: nat | 0 <= i < j < |r| && Within(edges, start, r[j], n) ensures Within(edges, start, r[i], n) {
      var p :| PathBetween(edges, p, start, r[j]) && |p| <= n + 1;
      LongEnough(edges, start, r, p, j);
      PathFollowsChain(edges, start, r, p, i + 1);
      PathPrefix(edges, p, i + 2);
      assert PathBetween(edges, p[..i + 2], start, r[i]);
    }
  }

  lemma LongEnough(edges: set<(int, int)>, start: int, r: seq<int>, p: seq<int>, j: nat)
    requires SingleParent(edges) && Discovered(edges, {start}, r) && NoDup([start] + r)
    requires j < |r| && PathBetween(edges, p, start, r[j])
    ensures |p| >= j + 2
  {
    var chain, m := [start] + r, |p| - 1;
    if m <= |r| {
      PathFollowsChain(edges, start, r, p, m);
      assert chain[m] == chain[j + 1];
    }
  }

  lemma PathPrefix(edges: set<(int, int)>, p: seq<int>, n: nat)
    requires IsPath(edges, p) && 1 <= n <= |p|
    ensures IsPath(edges, p[..n])
  {
    var q := p[..n];
    forall i | 0 <= i < |q| - 1 ensures (q[i], q[i + 1]) in edges {
      assert (p[i], p[i + 1]) in edges;
    }
  }

  /** With at most one parent each, the list is nearest first. */
  lemma SingleParentNearestFirst(edges: set<(int, int)>, start: int, r: seq<int>)
    requires Lists(edges, [start], {start}, r) && NoDup(r) && start !in r && SingleParent(edges)
    ensures NearestFirst(edges, start, r)
  {
    hide Lists, SingleParent, NearestFirst, Discovered;
    ListsDiscovers(edges, [start], {start}, r);
    ChainIsNearestFirst(edges, start, r);
  }

  // A graph on which a farther node comes first

  /** Two ways up from 0: 1, 3, 5 and 2, 4, 6. */
  function Fork(): set<(int, int)> {
    {(0, 1), (0, 2), (1, 3), (2, 4), (3, 5), (4, 6)}
  }

  lemma ForkSuccessors(x: int)
    ensures Successors(Fork(), x) == if x == 0 then {1, 2} else if 1 <= x <= 4 then {x + 2} else {}
  {
    var up := if x == 0 then {1, 2} else if 1 <= x <= 4 then {x + 2} else {};
    forall y | y in up ensures y in Successors(Fork(), x) {
      assert (x, y) in Fork();
    }
  }

  /** A node with one new successor lists it next. */
  lemma ListsOne(edges: set<(int, int)>, below: seq<int>, x: int, seen: set<int>, r: seq<int>, y: int)
    requires Lists(edges, below + [x], seen, r) && Successors(edges, x) - seen == {y}
    ensures r != [] && r[0] == y && Lists(edges, below + [y], seen + {y}, r[1..])
  {
    hide Lists, Successors;
    var k := ListsUnfold(edges, below, x, seen, r);
    assert k == 1 && r[0] in r[..1];
    assert r[0] in Elems(r[..1]);
    assert r[..1] == [y];
  }

  lemma ListsNone(edges: set<(int, int)>, below: seq<int>, x: int, seen: set<int>, r: seq<int>)
    requires Lists(edges, below + [x], seen, r) && Successors(edges, x) - seen == {}
    ensures Lists(edges, below, seen, r)
  {
    hide Lists, Successors;
    var k := ListsUnfold(edges, below, x, seen, r);
    assert below + r[..0] == below && r[0..] == r && seen + Elems(r[..0]) == seen;
  }

  lemma ForkBranch(z: int, y: int, r: seq<int>)
    requires 1 <= y <= 2 && z == 3 - y && Lists(Fork(), [z] + [y], {0, 1, 2}, r)
    ensures |r| >= 3 && r[1] == y + 4 && r[2] == z + 2
  {
    hide Lists, Successors, Fork;
    ForkSuccessors(y);
    ForkSuccessors(y + 2);
    ForkSuccessors(y + 4);
    ForkSuccessors(z);
    assert [] + [z] == [z];
    ListsOne(Fork(), [z], y, {0, 1, 2}, r, y + 2);
    ListsOne(Fork(), [z], y + 2, {0, 1, 2} + {y + 2}, r[1..], y + 4);
    ListsNone(Fork(), [z], y + 4, {0, 1, 2} + {y + 2} + {y + 4}, r[1..][1..]);
    ListsOne(Fork(), [], z, {0, 1, 2} + {y + 2} + {y + 4}, r[1..][1..], z + 2);
  }

  /** Whichever branch is taken first, its end is listed before the middle of the other. */
  lemma ForkOrder(r: seq<int>) returns (y: int)
    requires Lists(Fork(), [0], {0}, r)
    ensures 1 <= y <= 2 && |r| >= 5 && r[3] == y + 4 && r[4] == 3 - y + 2
  {
    hide Lists, Successors, Fork, NoDup;
    assert [] + [0] == [0];
    var k := ListsUnfold(Fork(), [], 0, {0}, r);
    ForkSuccessors(0);
    var batch := r[..k];
    PairOrder(batch);
    y := batch[1];
    assert [] + batch == [3 - y] + [y] && {0} + Elems(batch) == {0, 1, 2};
    ForkBranch(3 - y, y, r[2..]);
  }

  lemma PairOrder(s: seq<int>)
    requires NoDup(s) && Elems(s) == {1, 2}
    ensures |s| == 2 && 1 <= s[1] <= 2 && s[0] == 3 - s[1] && s == [s[0]] + [s[1]]
  {
    NoDupCardinality(s);
    assert s[0] in Elems(s) && s[1] in Elems(s);
  }

  lemma ForkShort(x: int, p: seq<int>)
    requires PathBetween(Fork(), p, 0, x) && |p| <= 3
    ensures x <= 4
  {
    if |p| >= 2 {
      assert (p[0], p[0 + 1]) in Fork();
    }
    if |p| == 3 {
      assert (p[1], p[1 + 1]) in Fork();
    }
  }

  /** No list of this graph is nearest first. */
  lemma ForkIsNotNearestFirst(r: seq<int>)
    requires Lists(Fork(), [0], {0}, r)
    ensures !NearestFirst(Fork(), 0, r)
  {
    hide Lists;
    var y := ForkOrder(r);
    var z := 3 - y;
    assert (0, z) in Fork() && (z, z + 2) in Fork();
    assert PathBetween(Fork(), [0, z, z + 2], 0, z + 2);
    assert Within(Fork(), 0, r[4], 2);
    assert !Within(Fork(), 0, r[3], 2) by {
      forall p | PathBetween(Fork(), p, 0, y + 4) ensures |p| > 3 {
        if |p| <= 3 {
          ForkShort(y + 4, p);
        }
      }
    }
  }
}
