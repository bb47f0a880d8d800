/** src/dag/src/dep_graph.rs: the dependency graph with its two inverted indices,
    the transitive dependent walk, and the two topological sorts. Keys stand for
    any ordered key type. */
module DependencyGraphs {
  import opened Sequences
  import opened Listings
  import opened Reachability
  import opened TopologicalOrders
  import opened Kahn

  type Table = map<int, seq<int>>

  /** The primary tables. Everything else in the graph is determined by them. */
  datatype Graph = Graph(nodes: seq<int>, deps: Table, offers: Table)

  ghost predicate WellFormed(g: Graph) {
    NoDup(g.nodes) && Elems(g.nodes) == g.deps.Keys == g.offers.Keys
  }

  ghost function Add(g: Graph, node: int, deps: seq<int>, offers: seq<int>): Graph {
    Graph(g.nodes + [node], g.deps[node := deps], g.offers[node := offers])
  }

  ghost function Remove(g: Graph, node: int): Graph {
    Graph(Without(g.nodes, node), g.deps - {node}, g.offers - {node})
  }

  // Inverted indices

  function Copies(n: int, k: nat): seq<int> {
    seq(k, _ => n)
  }

  /** The nodes listing `asset`, in registration order, as often as they list it. */
  ghost function Members(nodes: seq<int>, table: Table, asset: int): seq<int> {
    if nodes == [] then []
    else
      var last := nodes[|nodes| - 1];
      Members(nodes[..|nodes| - 1], table, asset) + Copies(last, Count(Row(table, last), asset))
  }

  ghost predicate NoEmptyEntry(index: Table) {
    forall a :: a in index ==> index[a] != []
  }

  /** `index` is the exact inversion of `table`, without empty entries. */
  ghost predicate Inverts(index: Table, nodes: seq<int>, table: Table) {
    NoEmptyEntry(index) && forall a :: Row(index, a) == Members(nodes, table, a)
  }

  lemma InversionUnique(i: Table, j: Table, nodes: seq<int>, table: Table)
    requires Inverts(i, nodes, table) && Inverts(j, nodes, table)
    ensures i == j
  {
    forall a ensures a in i <==> a in j {
      assert Row(i, a) == Row(j, a);
    }
    forall a | a in i ensures i[a] == j[a] {
      assert Row(i, a) == Row(j, a);
    }
  }

  lemma {:induction false} MembersContains(nodes: seq<int>, table: Table, asset: int, n: int)
    ensures n in Members(nodes, table, asset) <==> n in nodes && asset in Row(table, n)
  {
    if nodes != [] {
      var front, last := nodes[..|nodes| - 1], nodes[|nodes| - 1];
      MembersContains(front, table, asset, n);
      CountPositive(Row(table, last), asset);
      var copies := Copies(last, Count(Row(table, last), asset));
      assert n in copies <==> n == last && asset in Row(table, last) by {
        if |copies| > 0 { assert copies[0] == last; }
      }
      assert nodes == front + [last];
    }
  }

  lemma {:induction false} MembersFrame(nodes: seq<int>, table: Table, table': Table, asset: int)
    requires forall n :: n in nodes ==> Row(table, n) == Row(table', n)
    ensures Members(nodes, table, asset) == Members(nodes, table', asset)
  {
    if nodes != [] {
      MembersFrame(nodes[..|nodes| - 1], table, table', asset);
    }
  }

  lemma {:induction false} WithoutCopies(n: int, k: nat, x: int)
    ensures Without(Copies(n, k), x) == if n == x then [] else Copies(n, k)
  {
    if k > 0 {
      assert Copies(n, k)[..k - 1] == Copies(n, k - 1);
      WithoutCopies(n, k - 1, x);
    }
  }

  lemma {:induction false} MembersWithout(nodes: seq<int>, table: Table, asset: int, x: int)
    ensures Without(Members(nodes, table, asset), x) == Members(Without(nodes, x), table, asset)
  {
    if nodes != [] {
      var front, last := nodes[..|nodes| - 1], nodes[|nodes| - 1];
      var k := Count(Row(table, last), asset);
      MembersWithout(front, table, asset, x);
      WithoutConcat(Members(front, table, asset), Copies(last, k), x);
      WithoutCopies(last, k, x);
      var rest := Without(front, x);
      if last == x {
        assert Without(nodes, x) == rest;
      } else {
        assert Without(nodes, x) == rest + [last];
        MembersAppend(rest, last, table, asset);
      }
    }
  }

  lemma MembersAppend(nodes: seq<int>, last: int, table: Table, asset: int)
    ensures Members(nodes + [last], table, asset)
         == Members(nodes, table, asset) + Copies(last, Count(Row(table, last), asset))
  {
  }

  lemma {:induction false} CountConcat(s: seq<int>, t: seq<int>, x: int)
    ensures Count(s + t, x) == Count(s, x) + Count(t, x)
  {
    if t == [] {
      assert s + t == s;
    } else {
      assert (s + t)[..|s + t| - 1] == s + t[..|t| - 1];
      CountConcat(s, t[..|t| - 1], x);
    }
  }

  lemma {:induction false} CountCopies(n: int, k: nat, x: int)
    ensures Count(Copies(n, k), x) == if n == x then k else 0
  {
    if k > 0 {
      assert Copies(n, k)[..k - 1] == Copies(n, k - 1);
      CountCopies(n, k - 1, x);
    }
  }

  lemma {:induction false} MembersCount(nodes: seq<int>, table: Table, asset: int, n: int)
    requires NoDup(nodes)
    ensures Count(Members(nodes, table, asset), n) == if n in nodes then Count(Row(table, n), asset) else 0
  {
    hide Count, Copies;
    if nodes == [] {
      assert Count<int>([], n) == 0 by { CountNone(n); }
    } else {
      var front, last := nodes[..|nodes| - 1], nodes[|nodes| - 1];
      MembersCount(front, table, asset, n);
      var k := Count(Row(table, last), asset);
      CountConcat(Members(front, table, asset), Copies(last, k), n);
      CountCopies(last, k, n);
      NoDupFront(nodes);
      assert nodes == front + [last];
    }
  }

  lemma CountNone(n: int)
    ensures Count<int>([], n) == 0
  {
  }

  /** A row of an exact index holds a node as often as the node lists the asset. */
  lemma IndexMeans(index: Table, nodes: seq<int>, table: Table, a: int, n: int)
    requires Inverts(index, nodes, table) && NoDup(nodes)
    ensures Count(Row(index, a), n) == if n in nodes then Count(Row(table, n), a) else 0
    ensures n in Row(index, a) <==> n in nodes && a in Row(table, n)
    ensures a in index ==> index[a] != []
  {
    hide Members, Count;
    assert Row(index, a) == Members(nodes, table, a);
    MembersCount(nodes, table, a, n);
    MembersContains(nodes, table, a, n);
  }

  /** `r` is `index` with `node` pushed once under each of `assets`. */
  ghost predicate Pushed(r: Table, index: Table, node: int, assets: seq<int>) {
    NoEmptyEntry(r) && forall a :: Row(r, a) == Row(index, a) + Copies(node, Count(assets, a))
  }

  lemma CopiesOneMore(n: int, k: nat)
    ensures Copies(n, k + 1) == Copies(n, k) + [n]
  {
  }

  lemma PushNone(index: Table, node: int)
    requires NoEmptyEntry(index)
    ensures Pushed(index, index, node, [])
  {
  }

  lemma PushStep(r: Table, index: Table, node: int, assets: seq<int>, asset: int)
    requires Pushed(r, index, node, assets)
    ensures Pushed(r[asset := Row(r, asset) + [node]], index, node, assets + [asset])
  {
    hide Count, Copies;
    var r', assets' := r[asset := Row(r, asset) + [node]], assets + [asset];
    forall a ensures Row(r', a) == Row(index, a) + Copies(node, Count(assets', a)) {
      assert Row(r, a) == Row(index, a) + Copies(node, Count(assets, a));
      CountAppend(assets, asset, a);
      CopiesOneMore(node, Count(assets, a));
    }
  }

  /** `entry(asset).or_default().push(node)` for each asset in turn. */
  method PushAll(index: Table, assets: seq<int>, node: int) returns (r: Table)
    requires NoEmptyEntry(index)
    ensures Pushed(r, index, node, assets)
  {
    r := index;
    PushNone(index, node);
    hide Pushed;
    for i := 0 to |assets|
      invariant Pushed(r, index, node, assets[..i])
    {
      PushStep(r, index, node, assets[..i], assets[i]);
      assert assets[..i + 1] == assets[..i] + [assets[i]];
      r := r[assets[i] := Row(r, assets[i]) + [node]];
    }
    assert assets[..|assets|] == assets;
  }

  /** `scrub_index`: drop the node under one asset, and the entry if it empties. */
  function ScrubIndex(index: Table, asset: int, node: int): Table {
    if asset !in index then index
    else
      var members := Without(index[asset], node);
      if members == [] then index - {asset} else index[asset := members]
  }

  lemma ScrubRow(index: Table, asset: int, node: int)
    requires NoEmptyEntry(index)
    ensures NoEmptyEntry(ScrubIndex(index, asset, node))
    ensures forall a :: Row(ScrubIndex(index, asset, node), a) ==
                        if a == asset then Without(Row(index, a), node) else Row(index, a)
  {
  }

  /** `r` is `index` with `node` dropped under each of `assets`. */
  ghost predicate Scrubbed(r: Table, index: Table, node: int, assets: seq<int>) {
    && NoEmptyEntry(r)
    && forall a :: Row(r, a) == if a in assets then Without(Row(index, a), node) else Row(index, a)
  }

  lemma ScrubStep(r: Table, index: Table, node: int, assets: seq<int>, asset: int)
    requires Scrubbed(r, index, node, assets)
    ensures Scrubbed(ScrubIndex(r, asset, node), index, node, assets + [asset])
  {
    ScrubRow(r, asset, node);
    var r', row := ScrubIndex(r, asset, node), Row(index, asset);
    WithoutElems(row, node);
    WithoutElems(Without(row, node), node);
    forall a ensures Row(r', a) == if a in assets + [asset] then Without(Row(index, a), node) else Row(index, a) {
      assert Row(r, a) == if a in assets then Without(Row(index, a), node) else Row(index, a);
    }
  }

  method ScrubAll(index: Table, assets: seq<int>, node: int) returns (r: Table)
    requires NoEmptyEntry(index)
    ensures Scrubbed(r, index, node, assets)
  {
    r := index;
    for i := 0 to |assets|
      invariant Scrubbed(r, index, node, assets[..i])
    {
      ScrubStep(r, index, node, assets[..i], assets[i]);
      assert assets[..i + 1] == assets[..i] + [assets[i]];
      r := ScrubIndex(r, assets[i], node);
    }
    assert assets[..|assets|] == assets;
  }

  lemma AddKeepsInversion(nodes: seq<int>, table: Table, index: Table, node: int, assets: seq<int>, index': Table)
    requires Inverts(index, nodes, table) && node !in nodes && Pushed(index', index, node, assets)
    ensures Inverts(index', nodes + [node], table[node := assets])
  {
    hide Members, Copies, Count, NoEmptyEntry;
    var table' := table[node := assets];
    forall a ensures Row(index', a) == Members(nodes + [node], table', a) {
      assert Row(index', a) == Row(index, a) + Copies(node, Count(assets, a));
      MembersAppend(nodes, node, table', a);
      MembersFrame(nodes, table, table', a);
    }
  }

  lemma RemovedMembers(nodes: seq<int>, table: Table, node: int, a: int)
    ensures Members(Without(nodes, node), table - {node}, a) == Without(Members(nodes, table, a), node)
    ensures a !in Row(table, node) ==> Without(Members(nodes, table, a), node) == Members(nodes, table, a)
  {
    MembersContains(nodes, table, a, node);
    WithoutElems(Members(nodes, table, a), node);
    MembersWithout(nodes, table, a, node);
    WithoutElems(nodes, node);
    forall n | n in Without(nodes, node) ensures Row(table, n) == Row(table - {node}, n) {
      assert n in Elems(Without(nodes, node));
    }
    MembersFrame(Without(nodes, node), table, table - {node}, a);
  }

  lemma RemoveKeepsInversion(nodes: seq<int>, table: Table, index: Table, node: int, index': Table)
    requires Inverts(index, nodes, table) && Scrubbed(index', index, node, Row(table, node))
    ensures Inverts(index', Without(nodes, node), table - {node})
  {
    forall a ensures Row(index', a) == Members(Without(nodes, node), table - {node}, a) {
      RemovedMembers(nodes, table, node, a);
      assert Row(index, a) == Members(nodes, table, a);
    }
  }

  lemma AddThenRemoveKey(table: Table, node: int, row: seq<int>)
    requires node !in table
    ensures table[node := row] - {node} == table
  {
  }

  lemma AddWellFormed(g: Graph, node: int, deps: seq<int>, offers: seq<int>)
    requires WellFormed(g) && node !in g.nodes
    ensures WellFormed(Add(g, node, deps, offers))
  {
  }

  lemma InvertsNoEmpty(index: Table, nodes: seq<int>, table: Table)
    requires Inverts(index, nodes, table)
    ensures NoEmptyEntry(index)
  {
  }

  lemma RemoveAdded(g: Graph, node: int, deps: seq<int>, offers: seq<int>)
    requires WellFormed(g) && node !in g.nodes
    ensures Remove(Add(g, node, deps, offers), node) == g
  {
    WithoutElems(g.nodes, node);
    WithoutConcat(g.nodes, [node], node);
    assert node !in Elems(g.nodes);
    AddThenRemoveKey(g.deps, node, deps);
    AddThenRemoveKey(g.offers, node, offers);
  }

  /** Removing a node that was just added restores the tables, and with them
      any exact indices. */
  lemma RemoveUndoesAdd(g: Graph, node: int, deps: seq<int>, offers: seq<int>,
                        dependents: Table, providers: Table, dependents': Table, providers': Table)
    requires WellFormed(g) && node !in g.nodes
    requires Inverts(dependents, g.nodes, g.deps) && Inverts(providers, g.nodes, g.offers)
    requires var h := Remove(Add(g, node, deps, offers), node);
             Inverts(dependents', h.nodes, h.deps) && Inverts(providers', h.nodes, h.offers)
    ensures Remove(Add(g, node, deps, offers), node) == g
    ensures dependents' == dependents && providers' == providers
  {
    RemoveAdded(g, node, deps, offers);
    InversionUnique(dependents, dependents', g.nodes, g.deps);
    InversionUnique(providers, providers', g.nodes, g.offers);
  }

  // Edges

  ghost predicate ShareAsset(xs: seq<int>, ys: seq<int>) {
    exists a :: a in xs && a in ys
  }

  /** `p` provides something that `n` depends on. */
  ghost predicate Feeds(g: Graph, p: int, n: int) {
    ShareAsset(Row(g.offers, p), Row(g.deps, n))
  }

  ghost function FeedEdges(g: Graph): set<(int, int)> {
    set p, n | p in g.nodes && n in g.nodes && Feeds(g, p, n) :: (p, n)
  }

  /** The edges a sort over `subset` respects: self-loops are skipped. */
  ghost function SortEdges(g: Graph, subset: set<int>): set<(int, int)> {
    set p, n | p in subset && n in subset && p != n && Feeds(g, p, n) :: (p, n)
  }

  ghost predicate NeededBy(g: Graph, roots: seq<int>, x: int) {
    exists r :: r in roots && Reaches(FeedEdges(g), x, r)
  }

  lemma SortEdgesOfPart(g: Graph, whole: set<int>, part: set<int>)
    requires part <= whole
    ensures SortEdges(g, part) == Inside(SortEdges(g, whole), part)
  {
  }

  /** The nodes that depend on one of `assets`. */
  ghost function Consumers(g: Graph, assets: seq<int>): set<int> {
    set x | x in g.nodes && ShareAsset(assets, Row(g.deps, x))
  }

  lemma ConsumersNone(g: Graph)
    ensures Consumers(g, []) == {}
  {
  }

  lemma ConsumersStep(g: Graph, assets: seq<int>, asset: int)
    ensures Consumers(g, assets + [asset]) == Consumers(g, assets) + Elems(Members(g.nodes, g.deps, asset))
  {
    forall x ensures x in Consumers(g, assets + [asset])
                <==> x in Consumers(g, assets) || x in Members(g.nodes, g.deps, asset)
    {
      MembersContains(g.nodes, g.deps, asset, x);
      var ys := Row(g.deps, x);
      if asset in ys { assert asset in assets + [asset]; }
      if ShareAsset(assets, ys) {
        var a :| a in assets && a in ys;
        assert a in assets + [asset];
      }
    }
  }

  lemma SuccessorIsConsumer(g: Graph, v: int, x: int)
    requires WellFormed(g)
    ensures (v, x) in FeedEdges(g) <==> x in Consumers(g, Row(g.offers, v))
  {
  }

  lemma CardinalityAtMost<T>(a: set<T>, b: set<T>)
    requires a <= b
    ensures |a| <= |b|
  {
    assert b == a + (b - a);
  }

  // The depth-first walk

  datatype Frame = Frame(key: int, expanded: bool)

  /** Two for an entry still to expand, one for an expanded one. */
  ghost function Weight(stack: seq<Frame>): nat {
    if stack == [] then 0
    else Weight(stack[..|stack| - 1]) + if stack[|stack| - 1].expanded then 1 else 2
  }

  lemma WeightAppend(stack: seq<Frame>, f: Frame)
    ensures Weight(stack + [f]) == Weight(stack) + if f.expanded then 1 else 2
  {
  }

  datatype Walk = Walk(enqueued: set<int>, result: seq<int>, stack: seq<Frame>)

  /** What the walk has collected: every enqueued key but the start, once each. */
  ghost predicate Collected(start: int, enqueued: set<int>, result: seq<int>) {
    NoDup(result) && start !in result && Elems(result) + {start} == enqueued
  }

  /** Every enqueued key has been expanded or waits on the stack. */
  ghost predicate Pending(enqueued: set<int>, visited: set<int>, stack: seq<Frame>) {
    && (forall x :: x in enqueued ==> x in visited || Frame(x, false) in stack)
    && (forall f :: f in stack ==> f.key in enqueued)
  }

  /** `w` is `w0` after offering `added` to it. */
  ghost predicate Grew(w0: Walk, w: Walk, added: set<int>, start: int, visited: set<int>) {
    && w.enqueued == w0.enqueued + added
    && Collected(start, w.enqueued, w.result)
    && Pending(w.enqueued, visited, w.stack)
    && Weight(w.stack) - Weight(w0.stack) == 2 * (|w.enqueued| - |w0.enqueued|)
    && Extends(w0, w)
  }

  function Frames(keys: seq<int>): seq<Frame> {
    seq(|keys|, i requires 0 <= i < |keys| => Frame(keys[i], false))
  }

  /** What was listed since `w0` was put on the stack in the same order. */
  ghost predicate Extends(w0: Walk, w: Walk) {
    w0.result <= w.result && w.stack == w0.stack + Frames(w.result[|w0.result|..])
  }

  lemma ExtendsPush(w0: Walk, w: Walk, dep: int)
    requires Extends(w0, w)
    ensures Extends(w0, Push(w, dep))
  {
    assert Push(w, dep).result[|w0.result|..] == w.result[|w0.result|..] + [dep];
  }

  lemma ExtendsTrans(w0: Walk, w1: Walk, w2: Walk)
    requires Extends(w0, w1) && Extends(w1, w2)
    ensures Extends(w0, w2)
  {
    assert w2.result[|w0.result|..] == w1.result[|w0.result|..] + w2.result[|w1.result|..];
  }

  function Push(w: Walk, dep: int): Walk {
    Walk(w.enqueued + {dep}, w.result + [dep], w.stack + [Frame(dep, false)])
  }

  lemma GrewPush(w0: Walk, w: Walk, added: set<int>, start: int, visited: set<int>, dep: int)
    requires Grew(w0, w, added, start, visited) && dep !in w.enqueued
    ensures Grew(w0, Push(w, dep), added + {dep}, start, visited)
  {
    hide Extends, Weight, Pending, Collected;
    ExtendsPush(w0, w, dep);
    WeightAppend(w.stack, Frame(dep, false));
    PendOne(w.enqueued, visited, w.stack, dep);
    CollectOne(start, w.enqueued, w.result, dep);
  }

  lemma CollectOne(start: int, enqueued: set<int>, result: seq<int>, dep: int)
    requires Collected(start, enqueued, result) && dep !in enqueued
    ensures Collected(start, enqueued + {dep}, result + [dep])
  {
  }

  lemma PendOne(enqueued: set<int>, visited: set<int>, stack: seq<Frame>, dep: int)
    requires Pending(enqueued, visited, stack)
    ensures Pending(enqueued + {dep}, visited, stack + [Frame(dep, false)])
  {
  }

  lemma GrewSkip(w0: Walk, w: Walk, added: set<int>, start: int, visited: set<int>, dep: int)
    requires Grew(w0, w, added, start, visited) && dep in w.enqueued
    ensures Grew(w0, w, added + {dep}, start, visited)
  {
  }

  lemma GrewFacts(w0: Walk, w: Walk, added: set<int>, start: int, visited: set<int>)
    requires Grew(w0, w, added, start, visited)
    ensures w0.enqueued <= w.enqueued && Grew(w, w, {}, start, visited)
    ensures Weight(w.stack) - Weight(w0.stack) == 2 * (|w.enqueued| - |w0.enqueued|)
    ensures |w0.enqueued| <= |w.enqueued|
  {
    CardinalityAtMost(w0.enqueued, w.enqueued);
  }

  lemma GrewTrans(w0: Walk, w1: Walk, w2: Walk, a: set<int>, b: set<int>, start: int, visited: set<int>)
    requires Grew(w0, w1, a, start, visited) && Grew(w1, w2, b, start, visited)
    ensures Grew(w0, w2, a + b, start, visited)
  {
    hide Extends, Weight, Pending, Collected;
    ExtendsTrans(w0, w1, w2);
  }

  /** The innermost loop of the walk. */
  method EnqueueAll(dependents: seq<int>, activePath: set<int>, w0: Walk, ghost start: int, ghost visited: set<int>)
    returns (w: Walk)
    requires activePath <= w0.enqueued && Grew(w0, w0, {}, start, visited)
    ensures Grew(w0, w, Elems(dependents), start, visited)
  {
    hide Collected, Pending, Weight, Extends;
    w := w0;
    for i := 0 to |dependents|
      invariant Grew(w0, w, Elems(dependents[..i]), start, visited)
    {
      var dep := dependents[i];
      assert Elems(dependents[..i + 1]) == Elems(dependents[..i]) + {dep};
      if dep in activePath {
        GrewSkip(w0, w, Elems(dependents[..i]), start, visited, dep);
      } else if dep in w.enqueued {
        GrewSkip(w0, w, Elems(dependents[..i]), start, visited, dep);
      } else {
        GrewPush(w0, w, Elems(dependents[..i]), start, visited, dep);
        w := Push(w, dep);
      }
    }
    assert dependents[..|dependents|] == dependents;
  }

  /** The invariant of the whole walk, except for the entry being expanded. */
  ghost predicate WalkingBut(g: Graph, start: int, w: Walk, visited: set<int>, open: set<int>) {
    && visited <= w.enqueued
    && Collected(start, w.enqueued, w.result)
    && Pending(w.enqueued, visited, w.stack)
    && (forall x :: x in w.enqueued ==> Reaches(FeedEdges(g), start, x))
    && (forall v :: v in visited && v !in open ==> Consumers(g, Row(g.offers, v)) <= w.enqueued)
  }

  ghost predicate Walking(g: Graph, start: int, w: Walk, visited: set<int>) {
    WalkingBut(g, start, w, visited, {})
  }

  lemma WalkStarts(g: Graph, start: int)
    ensures Walking(g, start, Walk({start}, [], [Frame(start, false)]), {})
  {
    ReachesSelf(FeedEdges(g), start);
    assert Frame(start, false) in [Frame(start, false)];
  }

  lemma WalkPop(g: Graph, start: int, w: Walk, visited: set<int>, below: seq<Frame>, top: Frame)
    requires Walking(g, start, w, visited) && w.stack == below + [top] && (top.expanded || top.key in visited)
    ensures Walking(g, start, w.(stack := below), visited)
  {
  }

  lemma WalkMark(g: Graph, start: int, w: Walk, visited: set<int>, below: seq<Frame>, top: Frame)
    requires Walking(g, start, w, visited) && w.stack == below + [top] && !top.expanded && top.key !in visited
    ensures var w' := w.(stack := below + [Frame(top.key, true)]);
            WalkingBut(g, start, w', visited + {top.key}, {top.key}) && Grew(w', w', {}, start, visited + {top.key})
    ensures top.key in w.enqueued
  {
  }

  lemma WalkExpanded(g: Graph, start: int, w0: Walk, w: Walk, visited: set<int>, current: int)
    requires WellFormed(g) && WalkingBut(g, start, w0, visited, {current}) && current in visited
    requires Grew(w0, w, Consumers(g, Row(g.offers, current)), start, visited)
    ensures Walking(g, start, w, visited)
  {
    forall x | x in Consumers(g, Row(g.offers, current)) ensures Reaches(FeedEdges(g), start, x) {
      SuccessorIsConsumer(g, current, x);
      ReachesStep(FeedEdges(g), start, current, x);
    }
  }

  lemma WalkBounded(g: Graph, start: int, w: Walk, visited: set<int>)
    requires Walking(g, start, w, visited)
    ensures |w.enqueued| <= |Elems(g.nodes) + {start}|
  {
    var edges, universe := FeedEdges(g), Elems(g.nodes) + {start};
    forall x | x in w.enqueued ensures x in universe {
      ClosedHolds(edges, universe, start, x);
    }
    CardinalityAtMost(w.enqueued, universe);
  }

  lemma WalkEnds(g: Graph, start: int, w: Walk, visited: set<int>)
    requires WellFormed(g) && Walking(g, start, w, visited) && w.stack == []
    ensures NoDup(w.result) && start !in w.result
    ensures forall x :: x in w.result <==> x != start && Reaches(FeedEdges(g), start, x)
  {
    var edges := FeedEdges(g);
    forall a, b | (a, b) in edges && a in w.enqueued ensures b in w.enqueued {
      SuccessorIsConsumer(g, a, b);
    }
    forall x ensures x in w.result <==> x != start && Reaches(edges, start, x) {
      assert x in w.result <==> x in Elems(w.result);
      if Reaches(edges, start, x) {
        ClosedHolds(edges, w.enqueued, start, x);
      }
    }
  }

  // The order in which the walk lists

  /** The keys still to expand, from the bottom of the stack up. */
  ghost function Open(stack: seq<Frame>, visited: set<int>): seq<int> {
    if stack == [] then []
    else
      var top := stack[|stack| - 1];
      Open(stack[..|stack| - 1], visited) + if top.expanded || top.key in visited then [] else [top.key]
  }

  lemma OpenAppend(stack: seq<Frame>, top: Frame, visited: set<int>)
    ensures Open(stack + [top], visited) ==
            Open(stack, visited) + if top.expanded || top.key in visited then [] else [top.key]
  {
    assert (stack + [top])[..|stack|] == stack;
  }

  lemma {:induction false} OpenFrames(stack: seq<Frame>, keys: seq<int>, visited: set<int>)
    requires forall k :: k in keys ==> k !in visited
    ensures Open(stack + Frames(keys), visited) == Open(stack, visited) + keys
  {
    hide Open;
    if keys == [] {
      assert stack + Frames(keys) == stack && Open(stack, visited) + [] == Open(stack, visited);
    } else {
      var front, last := keys[..|keys| - 1], keys[|keys| - 1];
      OpenFrames(stack, front, visited);
      assert stack + Frames(keys) == stack + Frames(front) + [Frame(last, false)];
      OpenAppend(stack + Frames(front), Frame(last, false), visited);
      assert keys == front + [last];
      assert Open(stack, visited) + front + [last] == Open(stack, visited) + keys;
    }
  }

  lemma {:induction false} OpenVisit(stack: seq<Frame>, visited: set<int>, k: int)
    requires k !in Open(stack, visited)
    ensures Open(stack, visited + {k}) == Open(stack, visited)
  {
    if stack != [] {
      OpenVisit(stack[..|stack| - 1], visited, k);
    }
  }

  lemma {:induction false} OpenEnqueued(stack: seq<Frame>, visited: set<int>, enqueued: set<int>)
    requires forall f :: f in stack ==> f.key in enqueued
    ensures forall k :: k in Open(stack, visited) ==> k in enqueued
  {
    if stack != [] {
      OpenEnqueued(stack[..|stack| - 1], visited, enqueued);
    }
  }

  ghost predicate Tracking(edges: set<(int, int)>, start: int, w: Walk, visited: set<int>) {
    NoDup(Open(w.stack, visited)) && Continues(edges, start, Open(w.stack, visited), w.enqueued, w.result)
  }

  lemma TrackStart(edges: set<(int, int)>, start: int)
    ensures Tracking(edges, start, Walk({start}, [], [Frame(start, false)]), {})
  {
    hide Continues;
    OpenAppend([], Frame(start, false), {});
    assert [] + [Frame(start, false)] == [Frame(start, false)] && Open([], {}) + [start] == [start];
    ContinuesStart(edges, start);
  }

  lemma TrackPop(edges: set<(int, int)>, start: int, w: Walk, visited: set<int>, below: seq<Frame>, top: Frame)
    requires Tracking(edges, start, w, visited) && w.stack == below + [top] && (top.expanded || top.key in visited)
    ensures Tracking(edges, start, w.(stack := below), visited)
  {
    hide Continues, NoDup;
    OpenAppend(below, top, visited);
    assert Open(below, visited) + [] == Open(below, visited);
  }

  lemma TrackEnd(edges: set<(int, int)>, start: int, w: Walk, visited: set<int>)
    requires Tracking(edges, start, w, visited) && w.stack == []
    ensures Lists(edges, [start], {start}, w.result)
  {
    hide Continues;
    ContinuesEnd(edges, start, w.enqueued, w.result);
  }

  lemma SuccessorsAreConsumers(g: Graph, v: int)
    requires WellFormed(g)
    ensures Successors(FeedEdges(g), v) == Consumers(g, Row(g.offers, v))
  {
    hide FeedEdges, Consumers;
    forall x ensures x in Successors(FeedEdges(g), v) <==> x in Consumers(g, Row(g.offers, v)) {
      SuccessorIsConsumer(g, v, x);
    }
  }

  /** What an expansion lists is a batch of new keys. */
  lemma GrewBatch(w0: Walk, w: Walk, added: set<int>, start: int, visited: set<int>) returns (batch: seq<int>)
    requires Grew(w0, w, added, start, visited) && Collected(start, w0.enqueued, w0.result)
    ensures w.result == w0.result + batch && w.stack == w0.stack + Frames(batch)
    ensures NoDup(batch) && Elems(batch) == added - w0.enqueued && w.enqueued == w0.enqueued + Elems(batch)
  {
    hide Pending, Weight, Frames, Collected;
    batch := w.result[|w0.result|..];
    assert w.result == w0.result + batch;
    BatchElems(w0, w, batch, start);
  }

  lemma BatchElems(w0: Walk, w: Walk, batch: seq<int>, start: int)
    requires Collected(start, w0.enqueued, w0.result) && Collected(start, w.enqueued, w.result)
    requires w.result == w0.result + batch
    ensures NoDup(batch) && Elems(batch) == w.enqueued - w0.enqueued
  {
    hide NoDup;
    NoDupParts(w0.result, batch);
    ElemsConcat(w0.result, batch);
    assert start !in Elems(w.result);
  }

  lemma TrackExpand(g: Graph, start: int, w: Walk, visited: set<int>, below: seq<Frame>, k: int, w0: Walk, w2: Walk)
    requires WellFormed(g) && Walking(g, start, w, visited) && Tracking(FeedEdges(g), start, w, visited)
    requires w.stack == below + [Frame(k, false)] && k !in visited
    requires w0 == w.(stack := below + [Frame(k, true)])
    requires Grew(w0, w2, Consumers(g, Row(g.offers, k)), start, visited + {k})
    ensures Tracking(FeedEdges(g), start, w2, visited + {k})
  {
    hide Continues, Grew, Collected, FeedEdges, Consumers, Reaches, Open, NoDup, Frames;
    var open, seen := Open(below, visited), visited + {k};
    var batch := GrewBatch(w0, w2, Consumers(g, Row(g.offers, k)), start, seen);
    OpenAppend(below, Frame(k, false), visited);
    OpenEnqueued(w.stack, visited, w.enqueued);
    assert k in open + [k];
    assert forall x :: x in batch ==> x in Elems(batch);
    NoDupParts(open, [k]);
    assert k in Elems([k]);
    OpenVisit(below, visited, k);
    OpenAppend(below, Frame(k, true), seen);
    assert open + [] == open;
    OpenFrames(below + [Frame(k, true)], batch, seen);
    NoDupConcat(open, batch) by {
      forall x | x in Elems(open) ensures x !in Elems(batch) {
        assert x in open + [k];
      }
    }
    SuccessorsAreConsumers(g, k);
    ContinuesBatch(FeedEdges(g), start, open, k, w.enqueued, w.result, batch);
  }

  /** The list holds every other consumer of what the start or a listed node offers. */
  ghost predicate HoldsConsumers(nodes: seq<int>, offers: Table, deps: Table, start: int, r: seq<int>) {
    forall p, n | p in nodes && n in nodes && n != start && ShareAsset(Row(offers, p), Row(deps, n)) ::
      p == start || p in r ==> n in r
  }

  /** Each listed node consumes what the start or an earlier one offers. */
  ghost predicate EachConsumes(nodes: seq<int>, offers: Table, deps: Table, start: int, r: seq<int>) {
    forall i: nat | i < |r| ::
      r[i] in nodes && exists p :: (p == start || p in r[..i]) && ShareAsset(Row(offers, p), Row(deps, r[i]))
  }

  lemma ListMeans(g: Graph, start: int, r: seq<int>)
    requires Lists(FeedEdges(g), [start], {start}, r)
    requires forall x :: x in r <==> x != start && Reaches(FeedEdges(g), start, x)
    ensures HoldsConsumers(g.nodes, g.offers, g.deps, start, r) && EachConsumes(g.nodes, g.offers, g.deps, start, r)
  {
    hide ShareAsset, Reaches, Row, Lists;
    var edges := FeedEdges(g);
    ReachesSelf(edges, start);
    forall p, n | p in g.nodes && n in g.nodes && n != start && ShareAsset(Row(g.offers, p), Row(g.deps, n))
      ensures p == start || p in r ==> n in r
    {
      assert Feeds(g, p, n);
      if p == start || p in r {
        ReachesStep(edges, start, p, n);
      }
    }
    ListsDiscovers(edges, [start], {start}, r);
    forall i: nat | i < |r|
      ensures r[i] in g.nodes
      ensures exists p :: (p == start || p in r[..i]) && ShareAsset(Row(g.offers, p), Row(g.deps, r[i]))
    {
      assert HasParent(edges, {start}, r[..i], r[i]);
      var p :| (p in {start} || p in r[..i]) && (p, r[i]) in edges;
      assert Feeds(g, p, r[i]);
    }
  }

  // Tables for a sort over a subset

  ghost function ProviderEdges(providers: seq<int>, node: int, subset: set<int>): set<(int, int)> {
    set p | p in providers && p != node && p in subset :: (p, node)
  }

  /** The edges into `node` that arise from `assets`. */
  ghost function EdgesInto(g: Graph, node: int, assets: seq<int>, subset: set<int>): set<(int, int)> {
    set p | p in subset && p != node && ShareAsset(Row(g.offers, p), assets) :: (p, node)
  }

  lemma EdgesIntoStep(g: Graph, node: int, assets: seq<int>, asset: int, subset: set<int>)
    requires subset <= Elems(g.nodes)
    ensures EdgesInto(g, node, assets + [asset], subset) ==
            EdgesInto(g, node, assets, subset) + ProviderEdges(Members(g.nodes, g.offers, asset), node, subset)
  {
    hide Members;
    forall p | p in subset
      ensures ShareAsset(Row(g.offers, p), assets + [asset])
         <==> ShareAsset(Row(g.offers, p), assets) || p in Members(g.nodes, g.offers, asset)
    {
      MembersContains(g.nodes, g.offers, asset, p);
      assert p in Elems(g.nodes);
      ShareAssetStep(Row(g.offers, p), assets, asset);
    }
  }

  lemma ShareAssetStep(xs: seq<int>, ys: seq<int>, y: int)
    ensures ShareAsset(xs, ys + [y]) <==> ShareAsset(xs, ys) || y in xs
  {
  }

  lemma EdgesIntoNone(g: Graph, node: int, subset: set<int>)
    ensures EdgesInto(g, node, [], subset) == {}
  {
  }

  ghost function EdgesIntoAll(g: Graph, targets: seq<int>, subset: set<int>): set<(int, int)> {
    set p, n | p in subset && n in targets && p != n && Feeds(g, p, n) :: (p, n)
  }

  lemma EdgesIntoAllStep(g: Graph, targets: seq<int>, n: int, subset: set<int>)
    ensures EdgesIntoAll(g, targets + [n], subset) ==
            EdgesIntoAll(g, targets, subset) + EdgesInto(g, n, Row(g.deps, n), subset)
  {
  }

  lemma EdgesIntoAllDone(g: Graph, subset: seq<int>)
    ensures EdgesIntoAll(g, subset, Elems(subset)) == SortEdges(g, Elems(subset))
  {
  }

  /** The innermost loop of `topo_sort_inner`. */
  method AddProviderEdges(providers: seq<int>, node: int, subset: set<int>,
                          inDegree0: map<int, nat>, adj0: Table, ghost es0: seq<(int, int)>)
    returns (inDegree: map<int, nat>, adj: Table, ghost es: seq<(int, int)>)
    requires Tables(subset, inDegree0, adj0, es0) && node in subset
    ensures Tables(subset, inDegree, adj, es)
    ensures Elems(es) == Elems(es0) + ProviderEdges(providers, node, subset)
  {
    inDegree, adj, es := inDegree0, adj0, es0;
    for i := 0 to |providers|
      invariant Tables(subset, inDegree, adj, es)
      invariant Elems(es) == Elems(es0) + ProviderEdges(providers[..i], node, subset)
    {
      var p := providers[i];
      ProviderEdgesStep(providers, i, node, subset);
      if p == node || p !in subset {
        continue;
      }
      TablesAdd(subset, inDegree, adj, es, p, node);
      TablesKeys(subset, inDegree, adj, es);
      hide Tables;
      adj := adj[p := Row(adj, p) + [node]];
      inDegree := inDegree[node := inDegree[node] + 1];
      assert Elems(es + [(p, node)]) == Elems(es) + {(p, node)};
      es := es + [(p, node)];
    }
    assert providers[..|providers|] == providers;
  }

  lemma TablesKeys(nodes: set<int>, inDegree: map<int, nat>, adj: map<int, seq<int>>, es: seq<(int, int)>)
    requires Tables(nodes, inDegree, adj, es)
    ensures inDegree.Keys == nodes
  {
  }

  lemma ProviderEdgesStep(providers: seq<int>, i: nat, node: int, subset: set<int>)
    requires i < |providers|
    ensures ProviderEdges(providers[..i + 1], node, subset) ==
            ProviderEdges(providers[..i], node, subset) +
            if providers[i] == node || providers[i] !in subset then {} else {(providers[i], node)}
  {
  }

  // The dependency closure of a sort from roots

  /** All that is known to be needed is needed; all that is needed is known, or is
      due to be visited, except below `open`. */
  ghost predicate Closing(g: Graph, roots: seq<int>, closure: set<int>, toVisit: seq<int>) {
    && (forall x :: x in closure || x in toVisit ==> NeededBy(g, roots, x))
    && (forall r :: r in roots ==> r in closure || r in toVisit)
    && (forall p, v :: v in closure && (p, v) in FeedEdges(g) ==> p in closure || p in toVisit)
  }

  method PushFresh(providers: seq<int>, closure: set<int>, rest: seq<int>) returns (toVisit: seq<int>)
    ensures rest <= toVisit
    ensures forall x :: x in toVisit ==> x in rest || x in providers
    ensures forall x :: x in rest ==> x in toVisit
    ensures forall x :: x in providers ==> x in closure || x in toVisit
  {
    toVisit := rest;
    for k := 0 to |providers|
      invariant rest <= toVisit
      invariant forall x :: x in toVisit ==> x in rest || x in providers
      invariant forall j :: 0 <= j < k ==> providers[j] in closure || providers[j] in toVisit
    {
      if providers[k] !in closure {
        toVisit := toVisit + [providers[k]];
      }
    }
    assert forall x :: x in rest ==> x in toVisit[..|rest|];
  }

  lemma ClosingStarts(g: Graph, roots: seq<int>)
    ensures Closing(g, roots, {}, roots)
  {
    forall x | x in roots ensures NeededBy(g, roots, x) {
      ReachesSelf(FeedEdges(g), x);
    }
  }

  lemma ClosingBounded(g: Graph, roots: seq<int>, closure: set<int>, toVisit: seq<int>, x: int)
    requires Closing(g, roots, closure, toVisit) && x in toVisit
    ensures x in Elems(g.nodes) + Elems(roots)
  {
    var r :| r in roots && Reaches(FeedEdges(g), x, r);
    BackwardClosedHolds(FeedEdges(g), Elems(g.nodes) + Elems(roots), x, r);
  }

  lemma ClosingStep(g: Graph, roots: seq<int>, closure: set<int>, toVisit: seq<int>, rest: seq<int>, node: int,
                    toVisit': seq<int>)
    requires WellFormed(g) && Closing(g, roots, closure, toVisit) && toVisit == rest + [node]
    requires rest <= toVisit'
    requires forall x :: x in toVisit' ==> x in rest || (x in g.nodes && Feeds(g, x, node))
    requires forall p :: p in g.nodes && Feeds(g, p, node) ==> p in closure + {node} || p in toVisit'
    ensures Closing(g, roots, closure + {node}, toVisit')
  {
    assert node in toVisit;
    forall x | x in toVisit' ensures NeededBy(g, roots, x) {
      if x in rest {
        assert x in toVisit;
      } else {
        assert NeededBy(g, roots, node);
        var r :| r in roots && Reaches(FeedEdges(g), node, r);
        assert node in Elems(g.nodes);
        assert (x, node) in FeedEdges(g);
        ReachesFromEdge(FeedEdges(g), x, node, r);
      }
    }
    forall x | x in toVisit && x != node ensures x in toVisit' {
      assert x in rest;
    }
  }

  lemma ClosingSkip(g: Graph, roots: seq<int>, closure: set<int>, toVisit: seq<int>, rest: seq<int>, node: int)
    requires Closing(g, roots, closure, toVisit) && toVisit == rest + [node] && node in closure
    ensures Closing(g, roots, closure, rest)
  {
  }

  lemma ClosingEnds(g: Graph, roots: seq<int>, closure: set<int>)
    requires Closing(g, roots, closure, [])
    ensures forall x :: x in closure <==> NeededBy(g, roots, x)
  {
    forall x | NeededBy(g, roots, x) ensures x in closure {
      var r :| r in roots && Reaches(FeedEdges(g), x, r);
      BackwardClosedHolds(FeedEdges(g), closure, x, r);
    }
  }

  lemma ProviderEdgesNone(node: int, subset: set<int>)
    ensures ProviderEdges([], node, subset) == {}
  {
  }

  ghost function Needed(g: Graph, roots: seq<int>): set<int> {
    set x | x in g.nodes && NeededBy(g, roots, x)
  }

  /** What a sort over `subset` returns: success exactly when there is no cycle
      apart from self-loops, then the least order of all; otherwise the nodes
      missing from the partial order are those on or behind a cycle. */
  ghost predicate SortResult(g: Graph, subset: set<int>, r: Outcome) {
    var edges := SortEdges(g, subset);
    && KahnOrder(subset, edges, r.order)
    && (r.Complete? <==> Acyclic(edges))
    && (r.Complete? ==> LeastTopological(subset, edges, r.order))
    && (forall n :: n in subset ==> (n !in r.order <==> BehindCycle(edges, n)))
  }

  lemma SortResultHolds(g: Graph, subset: set<int>, es: seq<(int, int)>, r: Outcome)
    requires Elems(es) == SortEdges(g, subset)
    requires KahnOrder(subset, Elems(es), r.order)
    requires r.Complete? <==> Acyclic(Elems(es))
    requires r.Complete? ==> LeastTopological(subset, Elems(es), r.order)
    requires forall n :: n in subset ==> (n !in r.order <==> BehindCycle(Elems(es), n))
    ensures SortResult(g, subset, r)
  {
  }

  /** The same in the tables: a provider goes before those that need it, a smaller node
      comes later only while it waits for one placed in between, and a node is left out
      only if it waits for another that is left out. */
  ghost predicate Arranged(offers: Table, deps: Table, subset: set<int>, r: Outcome) {
    var s := r.order;
    && NoDup(s) && Elems(s) <= subset && (r.Complete? <==> Elems(s) == subset)
    && (forall i, j | 0 <= i < |s| && 0 <= j < |s| && i != j && ShareAsset(Row(offers, s[i]), Row(deps, s[j])) ::
          i < j)
    && (forall i, j :: 0 <= i < j < |s| && s[j] < s[i] ==> WaitsInside(offers, deps, s, i, j))
    && (forall n :: n in subset && n !in s ==> WaitsOutside(offers, deps, subset, s, n))
  }

  /** The node at `j` needs something that a node from `i` on offers. */
  ghost predicate WaitsInside(offers: Table, deps: Table, s: seq<int>, i: int, j: int)
    requires 0 <= i < j < |s|
  {
    exists k :: i <= k < j && ShareAsset(Row(offers, s[k]), Row(deps, s[j]))
  }

  /** `n` needs something that another node left out offers. */
  ghost predicate WaitsOutside(offers: Table, deps: Table, subset: set<int>, s: seq<int>, n: int) {
    exists m :: m in subset && m !in s && m != n && ShareAsset(Row(offers, m), Row(deps, n))
  }

  lemma SortEdgeMeans(g: Graph, subset: set<int>, p: int, n: int)
    ensures (p, n) in SortEdges(g, subset) <==>
              p in subset && n in subset && p != n && ShareAsset(Row(g.offers, p), Row(g.deps, n))
  {
    hide ShareAsset, Row;
  }

  lemma SortResultMeans(g: Graph, subset: set<int>, r: Outcome)
    requires SortResult(g, subset, r)
    ensures Arranged(g.offers, g.deps, subset, r)
  {
    var edges, s := SortEdges(g, subset), r.order;
    assert TopologicalOrders.Within(edges, subset);
    hide KahnOrder, BehindCycle, Acyclic, LeastTopological, NoDup, ShareAsset, Row, SortEdges, WaitsInside,
         WaitsOutside;
    KahnCompleteIffAcyclic(subset, edges, s);
    assert NoDup(s) && Elems(s) <= subset by {
      KahnOrderMeans(subset, edges, s);
    }
    forall i: nat, j: nat | i < |s| && j < |s| && i != j && ShareAsset(Row(g.offers, s[i]), Row(g.deps, s[j]))
      ensures i < j
    {
      ProviderIsFirst(g, subset, s, i, j);
    }
    forall i: nat, j: nat | i < j < |s| && s[j] < s[i] ensures WaitsInside(g.offers, g.deps, s, i, j) {
      SmallerIsWaiting(g, subset, s, i, j);
    }
    forall n | n in subset && n !in s ensures WaitsOutside(g.offers, g.deps, subset, s, n) {
      LeftOutIsWaiting(g, subset, s, n);
    }
  }

  lemma ProviderIsFirst(g: Graph, subset: set<int>, s: seq<int>, i: nat, j: nat)
    requires KahnOrder(subset, SortEdges(g, subset), s) && TopologicalOrders.Within(SortEdges(g, subset), subset)
    requires i < |s| && j < |s| && i != j && ShareAsset(Row(g.offers, s[i]), Row(g.deps, s[j]))
    ensures i < j
  {
    hide KahnOrder, SortEdges, NoDup, ShareAsset, Row;
    KahnOrderMeans(subset, SortEdges(g, subset), s);
    assert s[i] in Elems(s) && s[j] in Elems(s);
    NoDupAt(s, i, j);
    SortEdgeMeans(g, subset, s[i], s[j]);
  }

  lemma SmallerIsWaiting(g: Graph, subset: set<int>, s: seq<int>, i: nat, j: nat)
    requires KahnOrder(subset, SortEdges(g, subset), s) && TopologicalOrders.Within(SortEdges(g, subset), subset)
    requires i < j < |s| && s[j] < s[i]
    ensures WaitsInside(g.offers, g.deps, s, i, j)
  {
    hide KahnOrder, SortEdges, NoDup, ShareAsset, Row;
    KahnOrderMeans(subset, SortEdges(g, subset), s);
    var k :| i <= k < j && (s[k], s[j]) in SortEdges(g, subset);
    SortEdgeMeans(g, subset, s[k], s[j]);
  }

  lemma LeftOutIsWaiting(g: Graph, subset: set<int>, s: seq<int>, n: int)
    requires KahnOrder(subset, SortEdges(g, subset), s) && TopologicalOrders.Within(SortEdges(g, subset), subset)
    requires n in subset && n !in s
    ensures WaitsOutside(g.offers, g.deps, subset, s, n)
  {
    hide KahnOrder, SortEdges, NoDup, ShareAsset, Row;
    KahnOrderMeans(subset, SortEdges(g, subset), s);
    var m :| m in subset && m !in s && (m, n) in SortEdges(g, subset);
    SortEdgeMeans(g, subset, m, n);
  }

  lemma NoDupAt(s: seq<int>, i: nat, j: nat)
    requires NoDup(s) && i < |s| && j < |s| && i != j
    ensures s[i] != s[j]
  {
  }

  /** A set that holds the roots and every provider of something its members need. */
  ghost predicate HoldsNeeds(nodes: seq<int>, offers: Table, deps: Table, roots: seq<int>, s: set<int>) {
    && (forall r :: r in roots ==> r in s)
    && (forall v, p :: v in s && v in nodes && p in nodes && ShareAsset(Row(offers, p), Row(deps, v)) ==> p in s)
  }

  /** What the roots need is the least such set. */
  lemma NeededByMeans(g: Graph, roots: seq<int>, closure: set<int>)
    requires forall x :: x in closure <==> NeededBy(g, roots, x)
    ensures HoldsNeeds(g.nodes, g.offers, g.deps, roots, closure)
    ensures forall s :: HoldsNeeds(g.nodes, g.offers, g.deps, roots, s) ==> closure <= s
  {
    hide ShareAsset, Reaches, Row;
    var edges := FeedEdges(g);
    forall r | r in roots ensures r in closure {
      ReachesSelf(edges, r);
    }
    forall v, p | v in closure && v in g.nodes && p in g.nodes && ShareAsset(Row(g.offers, p), Row(g.deps, v))
      ensures p in closure
    {
      assert Feeds(g, p, v);
      var r :| r in roots && Reaches(edges, v, r);
      ReachesFromEdge(edges, p, v, r);
    }
    forall s | HoldsNeeds(g.nodes, g.offers, g.deps, roots, s) ensures closure <= s {
      forall x | x in closure ensures x in s {
        var r :| r in roots && Reaches(edges, x, r);
        BackwardClosedHolds(edges, s, x, r);
      }
    }
  }

  lemma {:induction false} RestrictNoDup(s: seq<int>, part: set<int>)
    requires NoDup(s)
    ensures NoDup(Restrict(s, part))
  {
    if s != [] {
      var front := s[..|s| - 1];
      RestrictNoDup(front, part);
      RestrictElems(front, part);
      assert s[|s| - 1] !in Elems(front);
      assert s[|s| - 1] !in Elems(Restrict(front, part));
    }
  }

  lemma NeededHoldsPrerequisites(g: Graph, roots: seq<int>)
    ensures HoldsPrerequisites(SortEdges(g, Elems(g.nodes)), Needed(g, roots))
  {
    forall a, b | (a, b) in SortEdges(g, Elems(g.nodes)) && b in Needed(g, roots) ensures a in Needed(g, roots) {
      var r :| r in roots && Reaches(FeedEdges(g), b, r);
      assert (a, b) in FeedEdges(g);
      ReachesFromEdge(FeedEdges(g), a, b, r);
    }
  }

  /** Sorting from roots gives the subsequence of the whole sort on what the roots
      need, whether the whole sort succeeds or stops at a cycle. */
  lemma SortFromIsSubsequence(g: Graph, roots: seq<int>, r: Outcome, s: seq<int>)
    requires SortResult(g, Needed(g, roots), r)
    requires KahnOrder(Elems(g.nodes), SortEdges(g, Elems(g.nodes)), s)
    ensures r.order == Restrict(s, Needed(g, roots))
  {
    var whole, part := Elems(g.nodes), Needed(g, roots);
    NeededHoldsPrerequisites(g, roots);
    SortEdgesOfPart(g, whole, part);
    KahnOrderInPart(whole, SortEdges(g, whole), part, s);
    KahnOrderUnique(part, SortEdges(g, part), r.order, Restrict(s, part));
  }

  class DependencyGraph {
    var nodes: seq<int>
    var deps: Table
    var offers: Table
    var providesToDependents: Table
    var assetToProviders: Table

    ghost function View(): Graph
      reads this
    {
      Graph(nodes, deps, offers)
    }

    ghost predicate Valid()
      reads this
    {
      && WellFormed(View())
      && Inverts(providesToDependents, nodes, deps)
      && Inverts(assetToProviders, nodes, offers)
    }

    constructor ()
      ensures Valid() && View() == Graph([], map[], map[])
    {
      nodes, deps, offers, providesToDependents, assetToProviders := [], map[], map[], map[], map[];
    }

    method Register(node: int, newDeps: seq<int>, newOffers: seq<int>) returns (ok: bool)
      requires Valid()
      modifies this
      ensures Valid()
      ensures ok <==> node !in old(nodes)
      ensures View() == if ok then Add(old(View()), node, newDeps, newOffers) else old(View())
      ensures ok ==> nodes == old(nodes) + [node] && deps == old(deps)[node := newDeps]
                     && offers == old(offers)[node := newOffers]
    {
      assert node in deps <==> node in Elems(nodes);
      if node in deps {
        return false;
      }
      InvertsNoEmpty(providesToDependents, nodes, deps);
      InvertsNoEmpty(assetToProviders, nodes, offers);
      hide Inverts, Pushed;
      var dependents := PushAll(providesToDependents, newDeps, node);
      var providers := PushAll(assetToProviders, newOffers, node);
      AddKeepsInversion(nodes, deps, providesToDependents, node, newDeps, dependents);
      AddKeepsInversion(nodes, offers, assetToProviders, node, newOffers, providers);
      AddWellFormed(View(), node, newDeps, newOffers);
      nodes := nodes + [node];
      deps := deps[node := newDeps];
      offers := offers[node := newOffers];
      providesToDependents := dependents;
      assetToProviders := providers;
      return true;
    }

    method Unregister(node: int) returns (present: bool)
      requires Valid()
      modifies this
      ensures Valid()
      ensures present <==> node in old(nodes)
      ensures View() == if present then Remove(old(View()), node) else old(View())
      ensures deps == old(deps) - {node} && offers == old(offers) - {node} && Elems(nodes) == Elems(old(nodes)) - {node}
    {
      assert node in deps <==> node in Elems(nodes);
      if node !in deps {
        assert deps - {node} == deps && offers - {node} == offers && Elems(nodes) - {node} == Elems(nodes);
        return false;
      }
      var dependents := ScrubAll(providesToDependents, deps[node], node);
      var providers := ScrubAll(assetToProviders, Row(offers, node), node);
      RemoveKeepsInversion(nodes, deps, providesToDependents, node, dependents);
      RemoveKeepsInversion(nodes, offers, assetToProviders, node, providers);
      WithoutElems(nodes, node);
      nodes := Without(nodes, node);
      deps := deps - {node};
      offers := offers - {node};
      providesToDependents := dependents;
      assetToProviders := providers;
      return true;
    }

    method Contains(node: int) returns (r: bool)
      requires Valid()
      ensures r <==> node in nodes
    {
      assert node in nodes <==> node in Elems(nodes);
      r := node in deps;
    }

    /** Every node reachable through provided assets, once, without the start. */
    method DependentsOf(node: int) returns (result: seq<int>)
      requires Valid()
      ensures NoDup(result) && node !in result
      ensures forall x :: x in result <==> x != node && Reaches(FeedEdges(View()), node, x)
      ensures Lists(FeedEdges(View()), [node], {node}, result)
      ensures HoldsConsumers(nodes, offers, deps, node, result) && EachConsumes(nodes, offers, deps, node, result)
    {
      hide Walking, WalkingBut, Grew, Inverts, WellFormed, Weight, FeedEdges, Tracking, Lists, HoldsConsumers,
           EachConsumes;
      ghost var g := View();
      var visited: set<int>, activePath: set<int> := {}, {};
      var w := Walk({node}, [], [Frame(node, false)]);
      WalkStarts(g, node);
      TrackStart(FeedEdges(g), node);
      while w.stack != []
        invariant activePath <= visited <= w.enqueued
        invariant Walking(g, node, w, visited) && Tracking(FeedEdges(g), node, w, visited)
        decreases 3 * (|Elems(g.nodes) + {node}| - |w.enqueued|) + Weight(w.stack)
      {
        WalkBounded(g, node, w, visited);
        var below, top := w.stack[..|w.stack| - 1], w.stack[|w.stack| - 1];
        assert w.stack == below + [top];
        WeightAppend(below, top);
        WeightAppend(below, Frame(top.key, true));
        if top.expanded {
          WalkPop(g, node, w, visited, below, top);
          TrackPop(FeedEdges(g), node, w, visited, below, top);
          activePath := activePath - {top.key};
          w := w.(stack := below);
        } else if top.key in visited {
          WalkPop(g, node, w, visited, below, top);
          TrackPop(FeedEdges(g), node, w, visited, below, top);
          w := w.(stack := below);
        } else {
          WalkMark(g, node, w, visited, below, top);
          ghost var w1, before := w, visited;
          w := w.(stack := below + [Frame(top.key, true)]);
          visited := visited + {top.key};
          activePath := activePath + {top.key};
          ghost var w0 := w;
          w := Expand(top.key, activePath, w, node, visited);
          GrewFacts(w0, w, Consumers(g, Row(g.offers, top.key)), node, visited);
          WalkExpanded(g, node, w0, w, visited, top.key);
          TrackExpand(g, node, w1, before, below, top.key, w0, w);
          WalkBounded(g, node, w, visited);
        }
      }
      result := w.result;
      WalkEnds(g, node, w, visited);
      TrackEnd(FeedEdges(g), node, w, visited);
      ListMeans(g, node, result);
    }

    /** The two outer loops of one expansion. */
    method Expand(current: int, activePath: set<int>, w0: Walk, ghost start: int, ghost visited: set<int>)
      returns (w: Walk)
      requires Valid() && activePath <= w0.enqueued && Grew(w0, w0, {}, start, visited)
      ensures Grew(w0, w, Consumers(View(), Row(offers, current)), start, visited)
    {
      hide Grew, Consumers, WellFormed;
      w := w0;
      ConsumersNone(View());
      if current in offers {
        var provided := offers[current];
        for i := 0 to |provided|
          invariant Grew(w0, w, Consumers(View(), provided[..i]), start, visited)
        {
          assert provided[..i + 1] == provided[..i] + [provided[i]];
          ConsumersStep(View(), provided[..i], provided[i]);
          assert Row(providesToDependents, provided[i]) == Members(nodes, deps, provided[i]);
          if provided[i] in providesToDependents {
            GrewFacts(w0, w, Consumers(View(), provided[..i]), start, visited);
            var row := providesToDependents[provided[i]];
            var w1 := EnqueueAll(row, activePath, w, start, visited);
            GrewTrans(w0, w, w1, Consumers(View(), provided[..i]), Elems(row), start, visited);
            w := w1;
          } else {
            assert Elems(Members(nodes, deps, provided[i])) == {};
            assert Consumers(View(), provided[..i + 1]) == Consumers(View(), provided[..i]);
          }
        }
        assert provided[..|provided|] == provided;
      }
    }

    /** `topo_sort_inner`: order exactly the given subset of the nodes. */
    method TopoSortInner(subset: seq<int>) returns (r: Outcome)
      requires Valid() && NoDup(subset) && Elems(subset) <= Elems(nodes)
      ensures SortResult(View(), Elems(subset), r) && Arranged(offers, deps, Elems(subset), r)
    {
      hide Arranged, SortResult, FeedEdges;
      var subsetSet := Elems(subset);
      var inDegree: map<int, nat> := map n | n in subsetSet :: 0;
      var adj: Table := map[];
      ghost var es: seq<(int, int)> := [];
      TablesEmpty(subsetSet, inDegree);
      for i := 0 to |subset|
        invariant Tables(subsetSet, inDegree, adj, es)
        invariant Elems(es) == EdgesIntoAll(View(), subset[..i], subsetSet)
      {
        assert subset[..i + 1] == subset[..i] + [subset[i]];
        EdgesIntoAllStep(View(), subset[..i], subset[i], subsetSet);
        inDegree, adj, es := AddNodeEdges(subset[i], subsetSet, inDegree, adj, es);
      }
      assert subset[..|subset|] == subset;
      EdgesIntoAllDone(View(), subset);
      NoDupCardinality(subset);
      r := KahnSort(inDegree, adj, |subset|, subsetSet, es);
      SortResultHolds(View(), subsetSet, es, r);
      SortResultMeans(View(), subsetSet, r);
    }

    method AddNodeEdges(node: int, subset: set<int>, inDegree0: map<int, nat>, adj0: Table, ghost es0: seq<(int, int)>)
      returns (inDegree: map<int, nat>, adj: Table, ghost es: seq<(int, int)>)
      requires Valid() && subset <= Elems(nodes) && node in subset
      requires Tables(subset, inDegree0, adj0, es0)
      ensures Tables(subset, inDegree, adj, es)
      ensures Elems(es) == Elems(es0) + EdgesInto(View(), node, Row(deps, node), subset)
    {
      hide Tables, EdgesInto, ProviderEdges, Members;
      inDegree, adj, es := inDegree0, adj0, es0;
      EdgesIntoNone(View(), node, subset);
      if node in deps {
        var needed := deps[node];
        for i := 0 to |needed|
          invariant Tables(subset, inDegree, adj, es)
          invariant Elems(es) == Elems(es0) + EdgesInto(View(), node, needed[..i], subset)
        {
          assert needed[..i + 1] == needed[..i] + [needed[i]];
          EdgesIntoStep(View(), node, needed[..i], needed[i], subset);
          assert Row(assetToProviders, needed[i]) == Members(nodes, offers, needed[i]);
          if needed[i] in assetToProviders {
            inDegree, adj, es := AddProviderEdges(assetToProviders[needed[i]], node, subset, inDegree, adj, es);
          } else {
            ProviderEdgesNone(node, subset);
          }
        }
        assert needed[..|needed|] == needed;
      }
    }

    method TopoSort() returns (r: Outcome)
      requires Valid()
      ensures SortResult(View(), Elems(nodes), r) && Arranged(offers, deps, Elems(nodes), r)
    {
      hide Arranged, SortResult;
      r := TopoSortInner(nodes);
    }

    /** Order what `roots` need: the subsequence of the whole order on it. */
    method TopoSortFrom(roots: seq<int>) returns (r: Outcome)
      requires Valid()
      ensures SortResult(View(), Needed(View(), roots), r) && Arranged(offers, deps, Needed(View(), roots), r)
      ensures forall s :: HoldsNeeds(nodes, offers, deps, roots, s) ==> Needed(View(), roots) <= s
      ensures exists s :: HoldsNeeds(nodes, offers, deps, roots, s) && Needed(View(), roots) == s * Elems(nodes)
      ensures forall s :: KahnOrder(Elems(nodes), SortEdges(View(), Elems(nodes)), s)
                      ==> r.order == Restrict(s, Needed(View(), roots))
    {
      hide Arranged, HoldsNeeds;
      var closure := DependencyClosure(roots);
      assert Needed(View(), roots) == closure * Elems(nodes);
      var subset := Restrict(nodes, closure);
      RestrictElems(nodes, closure);
      RestrictNoDup(nodes, closure);
      assert Elems(subset) == Needed(View(), roots);
      r := TopoSortInner(subset);
      forall s | KahnOrder(Elems(nodes), SortEdges(View(), Elems(nodes)), s)
        ensures r.order == Restrict(s, Needed(View(), roots))
      {
        SortFromIsSubsequence(View(), roots, r, s);
      }
    }

    method DependencyClosure(roots: seq<int>) returns (closure: set<int>)
      requires Valid()
      ensures forall x :: x in closure <==> NeededBy(View(), roots, x)
      ensures HoldsNeeds(nodes, offers, deps, roots, closure)
      ensures forall s :: HoldsNeeds(nodes, offers, deps, roots, s) ==> closure <= s
    {
      hide Closing, NeededBy, Feeds, Elems, HoldsNeeds;
      closure := {};
      var toVisit := roots;
      ClosingStarts(View(), roots);
      while toVisit != []
        invariant Closing(View(), roots, closure, toVisit)
        decreases |Elems(nodes) + Elems(roots) - closure|, |toVisit|
      {
        var rest, node := toVisit[..|toVisit| - 1], toVisit[|toVisit| - 1];
        assert toVisit == rest + [node];
        if node in closure {
          ClosingSkip(View(), roots, closure, toVisit, rest, node);
          toVisit := rest;
        } else {
          var toVisit' := PushProviders(node, closure + {node}, rest);
          ClosingStep(View(), roots, closure, toVisit, rest, node, toVisit');
          ClosingBounded(View(), roots, closure, toVisit, node);
          OneFewer(Elems(nodes) + Elems(roots), closure, node);
          closure := closure + {node};
          toVisit := toVisit';
        }
      }
      ClosingEnds(View(), roots, closure);
      NeededByMeans(View(), roots, closure);
    }

    method PushProviders(node: int, closure: set<int>, rest: seq<int>) returns (toVisit: seq<int>)
      requires Valid()
      ensures rest <= toVisit
      ensures forall x :: x in toVisit ==> x in rest || (x in nodes && Feeds(View(), x, node))
      ensures forall p :: p in nodes && Feeds(View(), p, node) ==> p in closure || p in toVisit
    {
      hide WellFormed, Members;
      toVisit := rest;
      if node in deps {
        var needed := deps[node];
        for i := 0 to |needed|
          invariant rest <= toVisit
          invariant forall x :: x in toVisit ==> x in rest || (x in nodes && ShareAsset(Row(offers, x), needed))
          invariant forall p :: p in nodes && ShareAsset(Row(offers, p), needed[..i]) ==> p in closure || p in toVisit
        {
          assert needed[..i + 1] == needed[..i] + [needed[i]];
          var toVisit' := PushFresh(Row(assetToProviders, needed[i]), closure, toVisit);
          forall x ensures x in Row(assetToProviders, needed[i]) <==> x in nodes && needed[i] in Row(offers, x) {
            MembersContains(nodes, offers, needed[i], x);
          }
          forall x ensures ShareAsset(Row(offers, x), needed[..i + 1])
                      <==> ShareAsset(Row(offers, x), needed[..i]) || needed[i] in Row(offers, x)
          {
            ShareAssetStep(Row(offers, x), needed[..i], needed[i]);
          }
          toVisit := toVisit';
        }
        assert needed[..|needed|] == needed;
      }
    }
  }
}
