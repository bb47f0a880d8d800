/** src/common-core/src/yago_taxonomy.rs, `transitive_ancestors`: a memoised
    depth-first search with a set of nodes in progress. */
module YagoAncestors {
  import opened Sequences
  import opened Reachability

  type Table = map<int, seq<int>>

  datatype Found = Found(out: set<int>, memo: map<int, set<int>>)

  /** A node in progress yields nothing; a finished one yields its memo. */
  function Dfs(direct: Table, node: int, memo: map<int, set<int>>, stack: set<int>): Found
    decreases |direct.Keys - stack|, 0
  {
    if node in memo then Found(memo[node], memo)
    else if node in stack then Found({}, memo)
    else if node !in direct then Found({}, memo[node := {}])
    else
      OneFewer(direct.Keys, stack, node);
      var r := DfsParents(direct, direct[node], {}, memo, stack + {node});
      Found(r.out, r.memo[node := r.out])
  }

  function DfsParents(direct: Table, parents: seq<int>, out: set<int>, memo: map<int, set<int>>, stack: set<int>): Found
    decreases |direct.Keys - stack|, |parents| + 1
  {
    if parents == [] then Found(out, memo)
    else
      var r := Dfs(direct, parents[0], memo, stack);
      DfsParents(direct, parents[1..], out + {parents[0]} + r.out, r.memo, stack)
  }

  ghost function DirectEdges(direct: Table): set<(int, int)> {
    set c, p | c in direct && p in direct[c] :: (c, p)
  }

  /** `x` is reached from `n` by one edge or more. */
  ghost predicate Above(direct: Table, n: int, x: int) {
    exists p :: (n, p) in DirectEdges(direct) && Reaches(DirectEdges(direct), p, x)
  }

  lemma AboveThrough(direct: Table, n: int, p: int, x: int)
    requires (n, p) in DirectEdges(direct) && (x == p || Above(direct, p, x))
    ensures Above(direct, n, x)
  {
    var edges := DirectEdges(direct);
    ReachesSelf(edges, p);
    if x != p {
      var q :| (p, q) in edges && Reaches(edges, q, x);
      ReachesFromEdge(edges, p, q, x);
    }
  }

  lemma AboveIsReach(direct: Table, n: int, x: int)
    requires x != n
    ensures Above(direct, n, x) <==> Reaches(DirectEdges(direct), n, x)
  {
    var edges := DirectEdges(direct);
    if Above(direct, n, x) {
      var p :| (n, p) in edges && Reaches(edges, p, x);
      ReachesFromEdge(edges, n, p, x);
    }
    if Reaches(edges, n, x) {
      var p := FirstStep(edges, n, x);
    }
  }

  // On every input: nothing but ancestors

  ghost predicate MemoSound(direct: Table, memo: map<int, set<int>>) {
    forall k, x :: k in memo && x in memo[k] ==> Above(direct, k, x)
  }

  lemma {:induction false} DfsSound(direct: Table, node: int, memo: map<int, set<int>>, stack: set<int>)
    requires MemoSound(direct, memo)
    ensures MemoSound(direct, Dfs(direct, node, memo, stack).memo)
    ensures forall x :: x in Dfs(direct, node, memo, stack).out ==> Above(direct, node, x)
    decreases |direct.Keys - stack|, 0
  {
    hide Above;
    if node !in memo && node !in stack && node in direct {
      OneFewer(direct.Keys, stack, node);
      DfsParentsSound(direct, node, direct[node], {}, memo, stack + {node});
    }
  }

  lemma {:induction false} DfsParentsSound(direct: Table, n: int, parents: seq<int>, out: set<int>,
                                           memo: map<int, set<int>>, stack: set<int>)
    requires MemoSound(direct, memo) && forall x :: x in out ==> Above(direct, n, x)
    requires forall p :: p in parents ==> (n, p) in DirectEdges(direct)
    ensures MemoSound(direct, DfsParents(direct, parents, out, memo, stack).memo)
    ensures forall x :: x in DfsParents(direct, parents, out, memo, stack).out ==> Above(direct, n, x)
    decreases |direct.Keys - stack|, |parents| + 1
  {
    hide Above;
    if parents != [] {
      DfsSound(direct, parents[0], memo, stack);
      var r := Dfs(direct, parents[0], memo, stack);
      forall x | x in out + {parents[0]} + r.out ensures Above(direct, n, x) {
        if x !in out {
          AboveThrough(direct, n, parents[0], x);
        }
      }
      DfsParentsSound(direct, n, parents[1..], out + {parents[0]} + r.out, r.memo, stack);
    }
  }

  // Where the parents of a class show all that lies above it: all its ancestors

  /** `x` is a parent of `n`, or lies above a parent that does not lead back to `n`. */
  ghost predicate Shown(edges: set<(int, int)>, n: int, x: int) {
    (n, x) in edges || exists p :: (n, p) in edges && !Reaches(edges, p, n) && Reaches(edges, p, x)
  }

  ghost predicate Full(edges: set<(int, int)>, n: int) {
    forall x :: x != n && Reaches(edges, n, x) ==> Shown(edges, n, x)
  }

  ghost predicate FullAbove(edges: set<(int, int)>, n: int) {
    forall a :: Reaches(edges, n, a) ==> Full(edges, a)
  }

  lemma FullOn(edges: set<(int, int)>, n: int, p: int)
    requires FullAbove(edges, n) && (n, p) in edges
    ensures FullAbove(edges, p)
  {
    hide Reaches, Full;
    forall a | Reaches(edges, p, a) ensures Reaches(edges, n, a) {
      ReachesFromEdge(edges, n, p, a);
    }
  }

  ghost predicate HoldsAbove(edges: set<(int, int)>, n: int, out: set<int>) {
    forall x :: x != n && Reaches(edges, n, x) ==> x in out
  }

  ghost predicate MemoComplete(direct: Table, memo: map<int, set<int>>) {
    var edges := DirectEdges(direct);
    forall k :: k in memo && FullAbove(edges, k) ==> HoldsAbove(edges, k, memo[k])
  }

  /** Everything in progress leads to `node`. */
  ghost predicate LeadsTo(direct: Table, stack: set<int>, node: int) {
    forall s :: s in stack ==> Reaches(DirectEdges(direct), s, node)
  }

  lemma LeadsOn(direct: Table, n: int, stack: set<int>, p: int)
    requires LeadsTo(direct, stack, n) && (n, p) in DirectEdges(direct)
    ensures LeadsTo(direct, stack, p)
  {
    forall s | s in stack ensures Reaches(DirectEdges(direct), s, p) {
      ReachesStep(DirectEdges(direct), s, n, p);
    }
  }

  /** `p` is in `out`, and so is all above it unless it leads back to `n`. */
  ghost predicate Taken(edges: set<(int, int)>, n: int, p: int, out: set<int>) {
    p in out && (!Reaches(edges, p, n) ==> HoldsAbove(edges, p, out))
  }

  lemma TakenIsFull(edges: set<(int, int)>, n: int, out: set<int>)
    requires Full(edges, n) && forall p :: (n, p) in edges ==> Taken(edges, n, p, out)
    ensures HoldsAbove(edges, n, out)
  {
    hide Reaches;
    forall x | x != n && Reaches(edges, n, x) ensures x in out {
      assert Shown(edges, n, x);
      if (n, x) !in edges {
        var p :| (n, p) in edges && !Reaches(edges, p, n) && Reaches(edges, p, x);
        assert Taken(edges, n, p, out);
      }
    }
  }

  /** A parent in progress leads back to the class, so the others, whose results are
      complete, are all that a full class needs. */
  lemma {:induction false} DfsComplete(direct: Table, node: int, memo: map<int, set<int>>, stack: set<int>)
    requires MemoComplete(direct, memo) && LeadsTo(direct, stack, node)
    ensures MemoComplete(direct, Dfs(direct, node, memo, stack).memo)
    ensures FullAbove(DirectEdges(direct), node) && (node in memo || node !in stack) ==>
              HoldsAbove(DirectEdges(direct), node, Dfs(direct, node, memo, stack).out)
    decreases |direct.Keys - stack|, 0
  {
    hide Reaches, FullAbove, HoldsAbove, Taken, DirectEdges;
    var edges := DirectEdges(direct);
    if node !in memo && node !in stack {
      if node in direct {
        OneFewer(direct.Keys, stack, node);
        ReachesSelf(edges, node);
        ParentsAreEdges(direct, node);
        DfsParentsComplete(direct, node, direct[node], {}, memo, stack + {node});
        if FullAbove(edges, node) {
          FullHere(edges, node);
          TakenIsFull(edges, node, DfsParents(direct, direct[node], {}, memo, stack + {node}).out);
        }
      } else {
        NothingAbove(direct, node);
      }
    }
  }

  lemma ParentsAreEdges(direct: Table, n: int)
    requires n in direct
    ensures forall p :: p in direct[n] <==> (n, p) in DirectEdges(direct)
  {
  }

  lemma FullHere(edges: set<(int, int)>, n: int)
    requires FullAbove(edges, n)
    ensures Full(edges, n)
  {
    ReachesSelf(edges, n);
  }

  lemma NothingAbove(direct: Table, n: int)
    requires n !in direct
    ensures HoldsAbove(DirectEdges(direct), n, {})
  {
    forall x | x != n ensures !Reaches(DirectEdges(direct), n, x) {
      if Reaches(DirectEdges(direct), n, x) {
        var p := FirstStep(DirectEdges(direct), n, x);
      }
    }
  }

  lemma {:induction false} DfsParentsComplete(direct: Table, n: int, parents: seq<int>, out: set<int>,
                                              memo: map<int, set<int>>, stack: set<int>)
    requires MemoComplete(direct, memo) && LeadsTo(direct, stack, n)
    requires forall p :: p in parents ==> (n, p) in DirectEdges(direct)
    ensures var r := DfsParents(direct, parents, out, memo, stack);
            && MemoComplete(direct, r.memo) && out <= r.out
            && (FullAbove(DirectEdges(direct), n) ==>
                  forall p :: p in parents ==> Taken(DirectEdges(direct), n, p, r.out))
    decreases |direct.Keys - stack|, |parents| + 1
  {
    hide Reaches, FullAbove, MemoComplete, DirectEdges;
    if parents != [] {
      var p, edges := parents[0], DirectEdges(direct);
      var r := Dfs(direct, p, memo, stack);
      LeadsOn(direct, n, stack, p);
      DfsComplete(direct, p, memo, stack);
      DfsParentsComplete(direct, n, parents[1..], out + {p} + r.out, r.memo, stack);
      if FullAbove(edges, n) {
        FullOn(edges, n, p);
        assert Taken(edges, n, p, out + {p} + r.out);
      }
    }
  }

  // Classes without a cycle of two or more above them are full

  /** No such cycle is reached from `n`. */
  ghost predicate Clean(edges: set<(int, int)>, n: int) {
    forall a, b :: Reaches(edges, n, a) && a != b && Reaches(edges, a, b) ==> !Reaches(edges, b, a)
  }

  /** Leaving `n` for good: some first step goes elsewhere. */
  lemma LeavingStep(edges: set<(int, int)>, n: int, x: int) returns (p: int)
    requires Reaches(edges, n, x) && x != n
    ensures (n, p) in edges && p != n && Reaches(edges, p, x)
  {
    var path :| PathBetween(edges, path, n, x);
    var i := |path| - 1;
    while path[i] != n
      invariant 0 <= i < |path| && forall j :: i < j < |path| ==> path[j] != n
      decreases i
    {
      i := i - 1;
    }
    p := path[i + 1];
    assert (path[i], path[i + 1]) in edges;
    var rest := path[i + 1..];
    forall j | 0 <= j < |rest| - 1 ensures (rest[j], rest[j + 1]) in edges {
      assert (path[i + 1 + j], path[i + 1 + j + 1]) in edges;
    }
    assert PathBetween(edges, rest, p, x);
  }

  lemma CleanIsFull(edges: set<(int, int)>, n: int)
    requires Clean(edges, n)
    ensures FullAbove(edges, n)
  {
    hide Reaches;
    forall a, x | Reaches(edges, n, a) && x != a && Reaches(edges, a, x) ensures Shown(edges, a, x) {
      var p := LeavingStep(edges, a, x);
      ReachesEdge(edges, a, p);
    }
  }

  // Memo entries are never changed

  ghost predicate Extends(memo: map<int, set<int>>, memo': map<int, set<int>>) {
    forall k :: k in memo ==> k in memo' && memo'[k] == memo[k]
  }

  lemma {:induction false} DfsExtends(direct: Table, node: int, memo: map<int, set<int>>, stack: set<int>)
    ensures Extends(memo, Dfs(direct, node, memo, stack).memo)
    decreases |direct.Keys - stack|, 0
  {
    if node !in memo && node !in stack && node in direct {
      OneFewer(direct.Keys, stack, node);
      DfsParentsExtends(direct, direct[node], {}, memo, stack + {node});
    }
  }

  lemma {:induction false} DfsParentsExtends(direct: Table, parents: seq<int>, out: set<int>,
                                             memo: map<int, set<int>>, stack: set<int>)
    ensures Extends(memo, DfsParents(direct, parents, out, memo, stack).memo)
    decreases |direct.Keys - stack|, |parents| + 1
  {
    if parents != [] {
      DfsExtends(direct, parents[0], memo, stack);
      var r := Dfs(direct, parents[0], memo, stack);
      DfsParentsExtends(direct, parents[1..], out + {parents[0]} + r.out, r.memo, stack);
    }
  }

  /** A node in progress gets no memo entry until it is finished. */
  lemma {:induction false} DfsKeepsInProgress(direct: Table, node: int, memo: map<int, set<int>>, stack: set<int>,
                                              n: int)
    requires n in stack && n !in memo
    ensures n !in Dfs(direct, node, memo, stack).memo
    decreases |direct.Keys - stack|, 0
  {
    if node !in memo && node !in stack && node in direct {
      OneFewer(direct.Keys, stack, node);
      ParentsKeepInProgress(direct, direct[node], {}, memo, stack + {node}, n);
    }
  }

  lemma {:induction false} ParentsKeepInProgress(direct: Table, parents: seq<int>, out: set<int>,
                                                 memo: map<int, set<int>>, stack: set<int>, n: int)
    requires n in stack && n !in memo
    ensures n !in DfsParents(direct, parents, out, memo, stack).memo
    decreases |direct.Keys - stack|, |parents| + 1
  {
    if parents != [] {
      DfsKeepsInProgress(direct, parents[0], memo, stack, n);
      var r := Dfs(direct, parents[0], memo, stack);
      ParentsKeepInProgress(direct, parents[1..], out + {parents[0]} + r.out, r.memo, stack, n);
    }
  }

  // On every input: one search from a fresh start is complete, cycles or not

  /** Everything memoised since `memo` has its parents in `out`, and these are
      memoised themselves or in progress. */
  ghost predicate Covered(direct: Table, memo: map<int, set<int>>, r: Found, stack: set<int>) {
    && memo.Keys <= r.memo.Keys
    && forall k, p :: k in r.memo && k !in memo && k in direct && p in direct[k] ==>
                        p in r.out && (p in r.memo || p in stack)
  }

  lemma {:induction false} DfsCovers(direct: Table, node: int, memo: map<int, set<int>>, stack: set<int>)
    ensures Covered(direct, memo, Dfs(direct, node, memo, stack), stack)
    ensures node in Dfs(direct, node, memo, stack).memo || node in stack
    decreases |direct.Keys - stack|, 0
  {
    if node !in memo && node !in stack && node in direct {
      OneFewer(direct.Keys, stack, node);
      DfsParentsCovers(direct, direct[node], {}, memo, stack + {node});
    }
  }

  lemma {:induction false} DfsParentsCovers(direct: Table, parents: seq<int>, out: set<int>, memo: map<int, set<int>>,
                                            stack: set<int>)
    ensures var r := DfsParents(direct, parents, out, memo, stack);
            && Covered(direct, memo, r, stack) && out <= r.out
            && forall p :: p in parents ==> p in r.out && (p in r.memo || p in stack)
    decreases |direct.Keys - stack|, |parents| + 1
  {
    if parents != [] {
      DfsCovers(direct, parents[0], memo, stack);
      var r := Dfs(direct, parents[0], memo, stack);
      DfsParentsCovers(direct, parents[1..], out + {parents[0]} + r.out, r.memo, stack);
    }
  }

  lemma PredecessorBelow(direct: Table, n: int, x: int) returns (k: int)
    requires Above(direct, n, x)
    ensures Reaches(DirectEdges(direct), n, k) && (k, x) in DirectEdges(direct)
  {
    var edges := DirectEdges(direct);
    var p :| (n, p) in edges && Reaches(edges, p, x);
    ReachesSelf(edges, n);
    if p == x {
      k := n;
    } else {
      k := LastStep(edges, p, x);
      ReachesFromEdge(edges, n, p, k);
    }
  }

  /** A search that meets no earlier memo finds exactly the ancestors, so only the
      reuse of a memo can lose one. */
  lemma FreshSearchIsExact(direct: Table, n: int, memo: map<int, set<int>>, x: int)
    requires MemoSound(direct, memo) && forall k :: k in memo ==> !Reaches(DirectEdges(direct), n, k)
    ensures x in Dfs(direct, n, memo, {}).out <==> Above(direct, n, x)
  {
    hide Dfs, Above, Reaches;
    var edges, r := DirectEdges(direct), Dfs(direct, n, memo, {});
    DfsSound(direct, n, memo, {});
    DfsCovers(direct, n, memo, {});
    var found := set k | k in r.memo && Reaches(edges, n, k);
    ReachesSelf(edges, n);
    forall a, b | (a, b) in edges && a in found ensures b in found {
      ReachesStep(edges, n, a, b);
    }
    if Above(direct, n, x) {
      var k := PredecessorBelow(direct, n, x);
      ClosedHolds(edges, found, n, k);
    }
  }

  // The whole run: one search per class, with a shared memo

  function Run(direct: Table, order: seq<int>): map<int, set<int>> {
    if order == [] then map[] else Dfs(direct, order[|order| - 1], Run(direct, order[..|order| - 1]), {}).memo
  }

  /** The order visits every class named once. */
  ghost predicate IsRun(edges: set<(int, int)>, direct: Table, order: seq<int>) {
    DirectEdges(direct) == edges && NoDup(order) && Elems(order) == Everything(direct)
  }

  lemma {:induction false} RunHasAll(direct: Table, order: seq<int>)
    ensures forall n :: n in order ==> n in Run(direct, order)
  {
    if order != [] {
      var front, last := order[..|order| - 1], order[|order| - 1];
      assert order == front + [last];
      RunHasAll(direct, front);
      DfsCovers(direct, last, Run(direct, front), {});
    }
  }

  lemma {:induction false} RunSound(direct: Table, order: seq<int>)
    ensures MemoSound(direct, Run(direct, order))
  {
    if order != [] {
      RunSound(direct, order[..|order| - 1]);
      DfsSound(direct, order[|order| - 1], Run(direct, order[..|order| - 1]), {});
    }
  }

  lemma {:induction false} RunComplete(direct: Table, order: seq<int>)
    ensures MemoComplete(direct, Run(direct, order))
  {
    if order != [] {
      RunComplete(direct, order[..|order| - 1]);
      DfsComplete(direct, order[|order| - 1], Run(direct, order[..|order| - 1]), {});
    }
  }

  ghost function ParentsOf(direct: Table, keys: seq<int>): set<int>
    requires forall k :: k in keys ==> k in direct
  {
    set c, p | c in keys && p in direct[c] :: p
  }

  lemma ParentsOfOneMore(direct: Table, keys: seq<int>, k: int)
    requires k in direct && forall c :: c in keys ==> c in direct
    ensures ParentsOf(direct, keys + [k]) == ParentsOf(direct, keys) + Elems(direct[k])
  {
    var keys' := keys + [k];
    assert keys'[|keys|] == k;
    forall p | p in direct[k] ensures p in ParentsOf(direct, keys') {
      assert k in keys' && p in direct[k];
    }
    forall p | p in ParentsOf(direct, keys) ensures p in ParentsOf(direct, keys') {
      var c :| c in keys && p in direct[c];
      assert c in keys';
    }
  }

  lemma ParentsOfNone(direct: Table)
    ensures ParentsOf(direct, []) == {}
  {
  }

  lemma ParentsOfAll(direct: Table, keys: seq<int>)
    requires forall k :: k in keys <==> k in direct
    ensures direct.Keys + ParentsOf(direct, keys) == Everything(direct)
  {
  }

  ghost function Everything(direct: Table): set<int> {
    direct.Keys + (set c, p | c in direct && p in direct[c] :: p)
  }

  lemma EverythingMeans(direct: Table)
    ensures forall n :: n in Everything(direct) <==> n in direct || exists c :: c in direct && n in direct[c]
  {
  }

  /** The ancestors of every class named: what the run over some order leaves in the
      memo. They are real ancestors on any input, and all of them where every class
      above is full. */
  method TransitiveAncestors(direct: Table) returns (result: map<int, set<int>>, ghost order: seq<int>)
    ensures IsRun(DirectEdges(direct), direct, order)
    ensures result.Keys == Everything(direct)
    ensures forall n :: n in result <==> n in direct || exists c :: c in direct && n in direct[c]
    ensures forall n :: n in result ==> n in Run(direct, order) && result[n] == Run(direct, order)[n] - {n}
    ensures forall n, x :: n in result && x in result[n] ==> x != n && Reaches(DirectEdges(direct), n, x)
    ensures forall n :: n in result && FullAbove(DirectEdges(direct), n) ==>
              HoldsAbove(DirectEdges(direct), n, result[n])
  {
    hide Reaches, FullAbove, Above, Dfs, DirectEdges, Everything, NoDup;
    var all := CollectAll(direct);
    var memo: map<int, set<int>> := map[];
    result := map[];
    for i := 0 to |all|
      invariant memo == Run(direct, all[..i])
      invariant forall n :: n in result <==> n in all[..i]
      invariant forall n :: n in result ==> n in memo && result[n] == memo[n] - {n}
    {
      var node := all[i];
      var r := Dfs(direct, node, memo, {});
      assert all[..i + 1] == all[..i] + [node];
      assert all[..i + 1][..i] == all[..i];
      DfsExtends(direct, node, memo, {});
      OutIsMemo(direct, node, memo);
      memo := r.memo;
      result := result[node := r.out - {node}];
    }
    assert all[..|all|] == all;
    order := all;
    EverythingMeans(direct);
    RunSound(direct, all);
    RunComplete(direct, all);
    forall n: int ensures n in result.Keys <==> n in Everything(direct) {
      assert n in result <==> n in all;
    }
    forall n, x | n in result && x in result[n] ensures Reaches(DirectEdges(direct), n, x) {
      AboveIsReach(direct, n, x);
    }
  }

  /** A search that starts with nothing in progress returns what it memoises. */
  lemma OutIsMemo(direct: Table, node: int, memo: map<int, set<int>>)
    ensures var r := Dfs(direct, node, memo, {}); node in r.memo && r.memo[node] == r.out
  {
  }

  method CollectAll(direct: Table) returns (all: seq<int>)
    ensures forall x :: x in all <==> x in Everything(direct)
    ensures NoDup(all) && Elems(all) == Everything(direct)
  {
    var keys := Enumerate(direct.Keys);
    hide ParentsOf;
    var s := direct.Keys;
    ParentsOfNone(direct);
    for i := 0 to |keys|
      invariant s == direct.Keys + ParentsOf(direct, keys[..i])
    {
      assert keys[..i + 1] == keys[..i] + [keys[i]];
      ParentsOfOneMore(direct, keys[..i], keys[i]);
      s := s + Elems(direct[keys[i]]);
    }
    assert keys[..|keys|] == keys;
    ParentsOfAll(direct, keys);
    all := Enumerate(s);
  }
}
