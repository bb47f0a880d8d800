/** src/dag/src/checkpointed.rs: checkpoints over an ordered list of steps. */
module Checkpointed {
  import opened Sequences
  import opened Kahn
  import opened DependencyGraphs

  /** Each step comes after everything it depends on. */
  ghost predicate DepsFirst(order: seq<int>, deps: Table) {
    forall i, d :: 0 <= i < |order| && d in Row(deps, order[i]) ==> d in order[..i]
  }

  /** Whatever is completed has its dependencies completed. */
  ghost predicate DependencyClosed(completed: set<int>, deps: Table) {
    forall k, d :: k in completed && d in Row(deps, k) ==> d in completed
  }

  ghost predicate Orderly(order: seq<int>, deps: Table, completed: set<int>) {
    DepsFirst(order, deps) && DependencyClosed(completed, deps) && completed <= Elems(order)
  }

  lemma AddKeepsOrderly(order: seq<int>, deps: Table, completed: set<int>, key: int, newDeps: seq<int>)
    requires Orderly(order, deps, completed) && key !in order && forall d :: d in newDeps ==> d in order
    ensures Orderly(order + [key], deps[key := newDeps], completed)
  {
    AddKeepsDepsFirst(order, deps, key, newDeps);
    ElemsAppend(order, key);
    assert key !in Elems(order);
  }

  lemma AddKeepsDepsFirst(order: seq<int>, deps: Table, key: int, newDeps: seq<int>)
    requires DepsFirst(order, deps) && key !in order && forall d :: d in newDeps ==> d in order
    ensures DepsFirst(order + [key], deps[key := newDeps])
  {
    var order', deps' := order + [key], deps[key := newDeps];
    forall i, d | 0 <= i < |order'| && d in Row(deps', order'[i]) ensures d in order'[..i] {
      assert order'[..i] == if i < |order| then order[..i] else order;
    }
  }

  /** Dropping a suffix of the order from the completed set keeps it closed. */
  lemma RewindKeepsClosed(order: seq<int>, deps: Table, completed: set<int>, at: nat)
    requires NoDup(order) && Elems(order) == deps.Keys && at <= |order|
    requires DepsFirst(order, deps) && DependencyClosed(completed, deps)
    ensures DependencyClosed(completed - Elems(order[at..]), deps)
  {
  }

  /** `deps` here is the graph's dependency table. */
  class CheckpointedStepGraph {
    const graph: DependencyGraph
    var order: seq<int>
    var state: map<int, int>
    var completed: set<int>
    var checkpoints: map<int, nat>

    /** Steps and graph nodes agree, and each checkpoint points at its step. */
    ghost predicate Valid()
      reads this, graph
    {
      && graph.Valid()
      && graph.nodes == order
      && state.Keys == Elems(order)
      && forall k :: k in checkpoints ==> checkpoints[k] < |order| && order[checkpoints[k]] == k
    }

    /** What holds as long as steps are added after their dependencies and only
        ready steps are completed. */
    ghost predicate Disciplined()
      reads this, graph
    {
      Orderly(order, graph.deps, completed)
    }

    constructor ()
      ensures Valid() && Disciplined() && fresh(graph) && order == [] && completed == {} && checkpoints == map[]
    {
      graph := new DependencyGraph();
      order, state, completed, checkpoints := [], map[], {}, map[];
    }

    /** A step added after its dependencies keeps both orders. */
    method AddStep(key: int, deps: seq<int>, st: int) returns (ok: bool)
      requires Valid()
      modifies this, graph
      ensures Valid() && completed == old(completed) && checkpoints == old(checkpoints)
      ensures ok <==> key !in old(order)
      ensures ok ==> order == old(order) + [key] && state == old(state)[key := st]
      ensures ok ==> graph.deps == old(graph.deps)[key := deps] && graph.offers == old(graph.offers)[key := [key]]
      ensures !ok ==> order == old(order) && state == old(state) && graph.View() == old(graph.View())
      ensures (old(Disciplined()) && forall d :: d in deps ==> d in old(order)) ==> Disciplined()
    {
      hide Inverts, WellFormed, Orderly;
      ghost var before := graph.deps;
      ok := graph.Register(key, deps, [key]);
      if ok {
        if Orderly(order, before, completed) && forall d :: d in deps ==> d in order {
          AddKeepsOrderly(order, before, completed, key, deps);
        }
        ElemsAppend(order, key);
        order := order + [key];
        state := state[key := st];
      }
    }

    method Checkpoint(name: int) returns (ok: bool)
      requires Valid()
      modifies this`checkpoints
      ensures Valid()
      ensures ok <==> name in order
      ensures checkpoints == if ok then old(checkpoints)[name := Position(order, name)] else old(checkpoints)
      ensures ok ==> name in checkpoints && checkpoints[name] < |order| && order[checkpoints[name]] == name
      ensures old(Disciplined()) ==> Disciplined()
    {
      hide Inverts, WellFormed;
      for i := 0 to |order|
        invariant name !in order[..i]
      {
        if order[i] == name {
          PositionIs(order, name, i);
          checkpoints := checkpoints[name := i];
          return true;
        }
      }
      assert order[..|order|] == order;
      return false;
    }

    /** Completing a ready step keeps the completed set closed. */
    method Complete(key: int)
      requires Valid()
      modifies this`completed
      ensures Valid() && completed == old(completed) + {key}
      ensures (old(Disciplined()) && key in order && forall d :: d in Row(graph.deps, key) ==> d in old(completed)) ==>
                Disciplined()
    {
      completed := completed + {key};
    }

    /** Every dependency of a registered step is completed. */
    method IsReady(key: int) returns (r: bool)
      requires Valid()
      ensures r <==> key in order && forall d :: d in Row(graph.deps, key) ==> d in completed
    {
      assert key in order <==> key in Elems(order);
      if key !in graph.deps {
        return false;
      }
      var deps := graph.deps[key];
      for i := 0 to |deps|
        invariant forall j :: 0 <= j < i ==> deps[j] in completed
      {
        var d := deps[i];
        if d !in completed {
          assert d in Row(graph.deps, key);
          return false;
        }
      }
      return true;
    }

    /** Uncompletes exactly the steps from the checkpoint on, and uses it up. */
    method RewindTo(name: int) returns (r: Option<seq<int>>)
      requires Valid()
      modifies this`completed, this`checkpoints
      ensures Valid()
      ensures r.Some? <==> name in old(checkpoints)
      ensures r.None? ==> completed == old(completed) && checkpoints == old(checkpoints)
      ensures r.Some? ==>
                && r.value == order[old(checkpoints)[name]..] && r.value != [] && r.value[0] == name
                && completed == old(completed) - Elems(r.value)
                && checkpoints == old(checkpoints) - {name}
      ensures old(Disciplined()) ==> Disciplined()
    {
      hide Inverts, DependencyClosed, DepsFirst;
      if name !in checkpoints {
        return None;
      }
      var at := checkpoints[name];
      var reset := order[at..];
      ghost var before := completed;
      checkpoints := checkpoints - {name};
      for i := 0 to |reset|
        invariant completed == before - Elems(reset[..i]) && checkpoints == old(checkpoints) - {name}
      {
        assert reset[..i + 1] == reset[..i] + [reset[i]];
        ElemsAppend(reset[..i], reset[i]);
        completed := completed - {reset[i]};
      }
      assert reset[..|reset|] == reset;
      if Orderly(order, graph.deps, before) {
        RewindKeepsClosed(order, graph.deps, before, at);
      }
      return Some(reset);
    }
  }

  ghost function Position(s: seq<int>, x: int): nat
    requires x in s
  {
    if s[0] == x then 0 else 1 + Position(s[1..], x)
  }

  lemma {:induction false} PositionIs(s: seq<int>, x: int, i: nat)
    requires i < |s| && s[i] == x && x !in s[..i]
    ensures Position(s, x) == i
  {
    if i > 0 {
      assert s[..i][0] == s[0];
      assert s[1..][..i - 1] == s[..i][1..];
      PositionIs(s[1..], x, i - 1);
    }
  }
}
