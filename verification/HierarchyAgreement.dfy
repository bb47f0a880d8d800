/** Three ways to ask whether one class is above another, over the same edges: bit
    vectors, the dependency graph, and the memoised search. */
module HierarchyAgreement {
  import opened Sequences
  import opened Reachability
  import opened Kahn
  import TypeInferences
  import Taxonomy
  import YagoAncestors

  lemma AllEdgesKnown(classIds: seq<int>, edges: seq<(int, int)>)
    requires forall e :: e in edges ==> e.0 in classIds && e.1 in classIds
    ensures TypeInferences.KnownEdges(classIds, edges) == Elems(edges)
  {
  }

  /** Parents grouped under their child. */
  method DirectParents(edges: seq<(int, int)>) returns (direct: map<int, seq<int>>)
    ensures YagoAncestors.DirectEdges(direct) == Elems(edges)
  {
    direct := map[];
    for i := 0 to |edges|
      invariant YagoAncestors.DirectEdges(direct) == Elems(edges[..i])
    {
      var (c, p) := edges[i];
      assert edges[..i + 1] == edges[..i] + [(c, p)];
      ElemsAppend(edges[..i], (c, p));
      DirectOneMore(direct, c, p);
      direct := direct[c := Row(direct, c) + [p]];
    }
    assert edges[..|edges|] == edges;
  }

  lemma DirectOneMore(direct: map<int, seq<int>>, c: int, p: int)
    ensures YagoAncestors.DirectEdges(direct[c := Row(direct, c) + [p]]) == YagoAncestors.DirectEdges(direct) + {(c, p)}
  {
  }

  /** On listed classes, when every edge joins listed classes, the bit vectors and
      the graph always agree. The memoised search claims no more than they do, and
      exactly as much where every class above the child is full. */
  method Compare(classIds: seq<int>, edges: seq<(int, int)>, child: int, parent: int)
    returns (byBits: bool, byGraph: bool, byMemo: bool)
    requires forall e :: e in edges ==> e.0 in classIds && e.1 in classIds
    requires child in classIds && parent in classIds
    ensures byBits == byGraph == Reaches(Elems(edges), child, parent)
    ensures byMemo ==> byBits
    ensures YagoAncestors.FullAbove(Elems(edges), child) ==> byMemo == byBits
  {
    hide Reaches, YagoAncestors.FullAbove;
    AllEdgesKnown(classIds, edges);
    var ti := TypeInferences.Build(classIds, edges);
    byBits := TypeInferences.IsSubclassOf(ti, child, parent);
    var h := new Taxonomy.TaxonomyHierarchy.FromEdges(edges);
    byGraph := h.IsSubclass(child, parent);
    var direct := DirectParents(edges);
    var above, order := YagoAncestors.TransitiveAncestors(direct);
    ReachesSelf(Elems(edges), child);
    if child !in above && child != parent {
      UnnamedReachesNothing(direct, child, parent);
    }
    byMemo := child == parent || (child in above && parent in above[child]);
  }

  lemma UnnamedReachesNothing(direct: map<int, seq<int>>, n: int, x: int)
    requires n !in YagoAncestors.Everything(direct) && x != n
    ensures !Reaches(YagoAncestors.DirectEdges(direct), n, x)
  {
    var edges := YagoAncestors.DirectEdges(direct);
    if Reaches(edges, n, x) {
      var p := FirstStep(edges, n, x);
    }
  }
}
