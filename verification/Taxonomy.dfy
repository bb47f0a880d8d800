/** src/concept/src/concept_store.rs: the subclass hierarchy over a dependency graph. */
module Taxonomy {
  import opened Sequences
  import opened Listings
  import opened Reachability
  import opened Kahn
  import opened DependencyGraphs

  /** Children grouped under their parent. */
  ghost predicate Grouped(byParent: Table, edges: seq<(int, int)>) {
    && (forall p :: p in byParent <==> exists c :: (c, p) in edges)
    && (forall p, c :: p in byParent ==> (c in byParent[p] <==> (c, p) in edges))
  }

  method GroupByParent(edges: seq<(int, int)>) returns (byParent: Table)
    ensures Grouped(byParent, edges)
  {
    byParent := map[];
    for i := 0 to |edges|
      invariant Grouped(byParent, edges[..i])
    {
      var (child, parent) := edges[i];
      GroupStep(byParent, edges[..i], child, parent);
      assert edges[..i + 1] == edges[..i] + [(child, parent)];
      byParent := byParent[parent := Row(byParent, parent) + [child]];
    }
    assert edges[..|edges|] == edges;
  }

  lemma GroupStep(byParent: Table, edges: seq<(int, int)>, child: int, parent: int)
    requires Grouped(byParent, edges)
    ensures Grouped(byParent[parent := Row(byParent, parent) + [child]], edges + [(child, parent)])
  {
  }

  /** A node under construction: it offers itself, and depends on its children. */
  ghost predicate TaxonomyNode(g: Graph, byParent: Table, n: int) {
    Row(g.offers, n) == [n] && Row(g.deps, n) == Row(byParent, n)
  }

  ghost predicate TaxonomyGraph(g: Graph, byParent: Table) {
    forall n :: n in g.nodes ==> TaxonomyNode(g, byParent, n)
  }

  lemma TaxonomyAdd(g: Graph, byParent: Table, n: int)
    requires WellFormed(g) && TaxonomyGraph(g, byParent) && n !in g.nodes
    ensures TaxonomyGraph(Add(g, n, Row(byParent, n), [n]), byParent)
  {
  }

  /** Walking the graph from a class follows exactly the subclass edges. */
  lemma TaxonomyEdges(g: Graph, byParent: Table, edges: seq<(int, int)>)
    requires TaxonomyGraph(g, byParent) && Grouped(byParent, edges)
    requires forall e :: e in edges ==> e.0 in g.nodes && e.1 in g.nodes
    ensures FeedEdges(g) == Elems(edges)
  {
    forall a, b | (a, b) in FeedEdges(g) ensures (a, b) in edges {
      assert TaxonomyNode(g, byParent, a) && TaxonomyNode(g, byParent, b);
      assert a in Row(byParent, b);
    }
    forall e | e in edges ensures e in FeedEdges(g) {
      var (a, b) := e;
      assert TaxonomyNode(g, byParent, a) && TaxonomyNode(g, byParent, b);
      assert a in Row(g.offers, a) && a in Row(g.deps, b);
    }
  }

  /** Each parent, with its children as dependencies. */
  method RegisterParents(g: DependencyGraph, byParent: Table)
    requires g.Valid() && g.nodes == []
    modifies g
    ensures g.Valid() && TaxonomyGraph(g.View(), byParent)
    ensures forall n :: n in g.nodes <==> n in byParent
  {
    hide Inverts, WellFormed;
    var parents := Enumerate(byParent.Keys);
    for i := 0 to |parents|
      invariant g.Valid() && TaxonomyGraph(g.View(), byParent)
      invariant forall n :: n in g.nodes <==> n in parents[..i]
    {
      assert parents[i] !in parents[..i];
      assert parents[i] in byParent;
      TaxonomyAdd(g.View(), byParent, parents[i]);
      var ok := g.Register(parents[i], byParent[parents[i]], [parents[i]]);
    }
    assert parents[..|parents|] == parents;
  }

  /** Each child that is no parent, without dependencies. */
  method RegisterChildren(g: DependencyGraph, list: seq<(int, int)>, ghost byParent: Table)
    requires g.Valid() && TaxonomyGraph(g.View(), byParent) && forall p :: p in byParent ==> p in g.nodes
    modifies g
    ensures g.Valid() && TaxonomyGraph(g.View(), byParent) && forall p :: p in byParent ==> p in g.nodes
    ensures forall j :: 0 <= j < |list| ==> list[j].0 in g.nodes
  {
    hide Inverts, WellFormed;
    for i := 0 to |list|
      invariant g.Valid() && TaxonomyGraph(g.View(), byParent)
      invariant forall p :: p in byParent ==> p in g.nodes
      invariant forall j :: 0 <= j < i ==> list[j].0 in g.nodes
    {
      var child := list[i].0;
      var known := g.Contains(child);
      if !known {
        TaxonomyAdd(g.View(), byParent, child);
        var ok := g.Register(child, [], [child]);
      }
    }
  }

  class TaxonomyHierarchy {
    var graph: DependencyGraph
    ghost var edges: set<(int, int)>

    ghost predicate Valid()
      reads this, graph
    {
      graph.Valid() && FeedEdges(graph.View()) == edges
    }

    /** `from_edges`: no registration can fail. */
    constructor FromEdges(list: seq<(int, int)>)
      ensures Valid() && edges == Elems(list) && fresh(graph)
    {
      hide Inverts, WellFormed;
      var g := new DependencyGraph();
      var byParent := GroupByParent(list);
      RegisterParents(g, byParent);
      RegisterChildren(g, list, byParent);
      forall e | e in list ensures e.0 in g.nodes && e.1 in g.nodes {
        var (c, p) := e;
        assert p in byParent;
      }
      TaxonomyEdges(g.View(), byParent, list);
      graph := g;
      edges := Elems(list);
    }

    /** The strict ancestors, the direct parents first. Beyond those the list follows
        one branch to its end before it turns to another, so it is nearest first
        where classes have single parents. */
    method Ancestors(id: int) returns (r: seq<int>)
      requires Valid()
      ensures NoDup(r) && forall x :: x in r <==> x != id && Reaches(edges, id, x)
      ensures Lists(edges, [id], {id}, r)
      ensures ParentsFirst(edges, id, r)
      ensures SingleParent(edges) ==> NearestFirst(edges, id, r)
    {
      hide Lists, SingleParent, NearestFirst;
      r := graph.DependentsOf(id);
      DirectFirst(edges, id, r);
      if SingleParent(edges) {
        SingleParentNearestFirst(edges, id, r);
      }
    }

    method IsSubclass(child: int, parent: int) returns (r: bool)
      requires Valid()
      ensures r <==> Reaches(edges, child, parent)
    {
      if child == parent {
        ReachesSelf(edges, child);
        return true;
      }
      var above := Ancestors(child);
      r := parent in above;
    }
  }
}
