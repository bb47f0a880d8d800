/** src/dag/src/type_inference.rs: the subclass closure by bit vectors. */
module TypeInferences {
  import opened Reachability

  datatype TypeInference = TypeInference(ancestors: map<int, seq<bool>>, classCount: nat, idToBit: map<int, nat>)

  function IsSubclassOf(ti: TypeInference, child: int, parent: int): bool {
    if child in ti.idToBit && parent in ti.idToBit && child in ti.ancestors then
      var bits, pb := ti.ancestors[child], ti.idToBit[parent];
      pb < |bits| && bits[pb]
    else false
  }

  /** The edges between registered classes; the others are skipped. */
  ghost function KnownEdges(classIds: seq<int>, edges: seq<(int, int)>): set<(int, int)> {
    set e | e in edges && e.0 in classIds && e.1 in classIds
  }

  /** The last position of each id. */
  ghost predicate BitsOf(classIds: seq<int>, idToBit: map<int, nat>) {
    && (forall id :: id in idToBit <==> id in classIds)
    && (forall id :: id in idToBit ==> idToBit[id] < |classIds| && classIds[idToBit[id]] == id)
  }

  /** Bit `i` of `bits` is the position of a class above `c`. */
  ghost predicate SoundBit(classIds: seq<int>, known: set<(int, int)>, idToBit: map<int, nat>, c: int, i: nat) {
    i < |classIds| && classIds[i] in idToBit && idToBit[classIds[i]] == i && Reaches(known, c, classIds[i])
  }

  ghost predicate SoundRow(classIds: seq<int>, known: set<(int, int)>, idToBit: map<int, nat>, c: int,
                           bits: seq<bool>) {
    && |bits| == |classIds|
    && c in idToBit && idToBit[c] < |bits| && bits[idToBit[c]]
    && forall i :: 0 <= i < |bits| && bits[i] ==> SoundBit(classIds, known, idToBit, c, i)
  }

  ghost predicate Sound(classIds: seq<int>, known: set<(int, int)>, idToBit: map<int, nat>, anc: map<int, seq<bool>>) {
    && anc.Keys == idToBit.Keys
    && forall c :: c in anc ==> SoundRow(classIds, known, idToBit, c, anc[c])
  }

  ghost predicate Below(a: seq<bool>, b: seq<bool>) {
    |a| == |b| && forall i :: 0 <= i < |a| && a[i] ==> b[i]
  }

  ghost predicate StrictlyBelow(a: seq<bool>, b: seq<bool>) {
    Below(a, b) && exists i :: 0 <= i < |a| && b[i] && !a[i]
  }

  /** No pass has anything left to add. */
  ghost predicate Saturated(known: set<(int, int)>, anc: map<int, seq<bool>>) {
    forall c, p :: (c, p) in known ==> c in anc && p in anc && Below(anc[p], anc[c])
  }

  lemma SaturatedIsComplete(classIds: seq<int>, known: set<(int, int)>, idToBit: map<int, nat>, anc: map<int,
                            seq<bool>>,
                            c: int, p: int)
    requires Sound(classIds, known, idToBit, anc) && Saturated(known, anc)
    requires c in anc && p in anc && Reaches(known, c, p)
    ensures anc[c][idToBit[p]]
  {
    var b := idToBit[p];
    assert SoundRow(classIds, known, idToBit, p, anc[p]);
    var holders := set x | x in anc && b < |anc[x]| && anc[x][b];
    forall x, y | (x, y) in known && y in holders ensures x in holders {
      assert Below(anc[y], anc[x]);
    }
    BackwardClosedHolds(known, holders, c, p);
  }

  lemma SoundAndSaturatedDecides(classIds: seq<int>, known: set<(int, int)>, ti: TypeInference, c: int, p: int)
    requires BitsOf(classIds, ti.idToBit) && Sound(classIds, known, ti.idToBit, ti.ancestors)
    requires Saturated(known, ti.ancestors)
    ensures IsSubclassOf(ti, c, p) <==> c in classIds && p in classIds && Reaches(known, c, p)
  {
    if c in ti.idToBit && p in ti.idToBit {
      assert SoundRow(classIds, known, ti.idToBit, c, ti.ancestors[c]);
      if Reaches(known, c, p) {
        SaturatedIsComplete(classIds, known, ti.idToBit, ti.ancestors, c, p);
      }
      if IsSubclassOf(ti, c, p) {
        assert SoundBit(classIds, known, ti.idToBit, c, ti.idToBit[p]);
      }
    }
  }

  /** The test whether a parent has a bit the child lacks. */
  method Lacks(child: seq<bool>, parent: seq<bool>) returns (r: bool)
    requires |child| == |parent|
    ensures r <==> !Below(parent, child)
  {
    for i := 0 to |parent|
      invariant forall j :: 0 <= j < i && parent[j] ==> child[j]
    {
      if parent[i] && !child[i] {
        return true;
      }
    }
    return false;
  }

  /** The merge of a parent's bits into a child's; `grew` is the change flag. */
  method Merge(child: seq<bool>, parent: seq<bool>, pb: nat) returns (bits: seq<bool>, grew: bool)
    requires |child| == |parent| && pb < |child| && parent[pb] && !Below(parent, child)
    ensures StrictlyBelow(child, bits) && Below(parent, bits) && grew
    ensures forall i :: 0 <= i < |bits| && bits[i] ==> child[i] || parent[i]
  {
    bits := child[pb := true];
    grew := false;
    for i := 0 to |parent|
      invariant |bits| == |child| && Below(child, bits)
      invariant forall j :: 0 <= j < |bits| && bits[j] ==> child[j] || parent[j]
      invariant forall j :: 0 <= j < i && parent[j] ==> bits[j]
      invariant grew ==> bits != child
    {
      if parent[i] && !bits[i] {
        bits := bits[i := true];
        grew := true;
      }
    }
    assert StrictlyBelow(child, bits) by {
      var k :| 0 <= k < |parent| && parent[k] && !child[k];
      assert bits[k];
    }
    if bits != child {
      grew := true;
    }
  }

  /** An update adds to its class, and adds only ancestors. */
  ghost predicate GoodUpdate(classIds: seq<int>, known: set<(int, int)>, idToBit: map<int, nat>, anc: map<int,
                             seq<bool>>,
                             u: (int, seq<bool>))
  {
    u.0 in anc && StrictlyBelow(anc[u.0], u.1) && SoundRow(classIds, known, idToBit, u.0, u.1)
  }

  lemma MergeIsGood(classIds: seq<int>, known: set<(int, int)>, idToBit: map<int, nat>, anc: map<int, seq<bool>>,
                    child: int, parent: int, bits: seq<bool>)
    requires Sound(classIds, known, idToBit, anc) && child in anc && parent in anc && (child, parent) in known
    requires StrictlyBelow(anc[child], bits)
    requires forall i :: 0 <= i < |bits| && bits[i] ==> anc[child][i] || (i < |anc[parent]| && anc[parent][i])
    ensures GoodUpdate(classIds, known, idToBit, anc, (child, bits))
  {
    hide Reaches;
    assert SoundRow(classIds, known, idToBit, child, anc[child]);
    assert SoundRow(classIds, known, idToBit, parent, anc[parent]);
    forall i | 0 <= i < |bits| && bits[i] ensures SoundBit(classIds, known, idToBit, child, i) {
      if !anc[child][i] {
        assert SoundBit(classIds, known, idToBit, parent, i);
        ReachesFromEdge(known, child, parent, classIds[i]);
      }
    }
  }

  /** One pass: the batch of updates, all computed from the same tables. */
  method CollectUpdates(classIds: seq<int>, edges: seq<(int, int)>, idToBit: map<int, nat>, anc: map<int, seq<bool>>)
    returns (updates: seq<(int, seq<bool>)>, changed: bool)
    requires BitsOf(classIds, idToBit) && Sound(classIds, KnownEdges(classIds, edges), idToBit, anc)
    ensures forall u :: u in updates ==> GoodUpdate(classIds, KnownEdges(classIds, edges), idToBit, anc, u)
    ensures changed <==> updates != []
    ensures updates == [] ==> Saturated(KnownEdges(classIds, edges), anc)
  {
    hide GoodUpdate, Reaches;
    ghost var known := KnownEdges(classIds, edges);
    updates, changed := [], false;
    for k := 0 to |edges|
      invariant forall u :: u in updates ==> GoodUpdate(classIds, known, idToBit, anc, u)
      invariant changed <==> updates != []
      invariant updates == [] ==> forall j :: 0 <= j < k && edges[j] in known ==>
                  edges[j].1 in anc && edges[j].0 in anc && Below(anc[edges[j].1], anc[edges[j].0])
    {
      var (child, parent) := edges[k];
      if parent in idToBit && child in anc {
        assert edges[k] in known;
        assert SoundRow(classIds, known, idToBit, child, anc[child]);
        assert SoundRow(classIds, known, idToBit, parent, anc[parent]);
        var pb := idToBit[parent];
        var lacks := Lacks(anc[child], anc[parent]);
        if !anc[child][pb] || lacks {
          var bits, grew := Merge(anc[child], anc[parent], pb);
          MergeIsGood(classIds, known, idToBit, anc, child, parent, bits);
          changed := changed || grew;
          updates := updates + [(child, bits)];
        }
      } else {
        assert edges[k] !in known;
      }
    }
    forall c, p | updates == [] && (c, p) in known ensures c in anc && p in anc && Below(anc[p], anc[c]) {
      var j :| 0 <= j < |edges| && edges[j] == (c, p);
    }
  }

  ghost function ZeroBits(anc: map<int, seq<bool>>, n: nat): set<(int, int)> {
    set c, i | c in anc && 0 <= i < n && !(i < |anc[c]| && anc[c][i]) :: (c, i)
  }

  /** Writing the batch back: a later update for a class overwrites an earlier one,
      and still every updated class has grown. */
  method ApplyUpdates(classIds: seq<int>, ghost known: set<(int, int)>, ghost idToBit: map<int, nat>,
                      anc0: map<int, seq<bool>>, updates: seq<(int, seq<bool>)>)
    returns (anc: map<int, seq<bool>>)
    requires Sound(classIds, known, idToBit, anc0)
    requires forall u :: u in updates ==> GoodUpdate(classIds, known, idToBit, anc0, u)
    ensures Sound(classIds, known, idToBit, anc)
    ensures updates != [] ==> |ZeroBits(anc, |classIds|)| < |ZeroBits(anc0, |classIds|)|
  {
    hide SoundRow;
    anc := anc0;
    for k := 0 to |updates|
      invariant Sound(classIds, known, idToBit, anc)
      invariant forall c :: c in anc0 ==> Below(anc0[c], anc[c])
      invariant forall j :: 0 <= j < k ==> updates[j].0 in anc0 && StrictlyBelow(anc0[updates[j].0], anc[updates[j].0])
    {
      assert GoodUpdate(classIds, known, idToBit, anc0, updates[k]);
      anc := anc[updates[k].0 := updates[k].1];
    }
    if updates != [] {
      RowLength(classIds, known, idToBit, anc0, updates[0].0);
      ZerosDrop(anc0, anc, updates[0].0, |classIds|);
    }
  }

  lemma RowLength(classIds: seq<int>, known: set<(int, int)>, idToBit: map<int, nat>, anc: map<int, seq<bool>>, c: int)
    requires Sound(classIds, known, idToBit, anc) && c in anc
    ensures |anc[c]| == |classIds|
  {
  }

  lemma ZerosDrop(anc0: map<int, seq<bool>>, anc: map<int, seq<bool>>, c: int, n: nat)
    requires anc.Keys == anc0.Keys && forall x :: x in anc0 ==> Below(anc0[x], anc[x])
    requires c in anc0 && |anc0[c]| <= n && StrictlyBelow(anc0[c], anc[c])
    ensures |ZeroBits(anc, n)| < |ZeroBits(anc0, n)|
  {
    var i :| 0 <= i < |anc0[c]| && anc[c][i] && !anc0[c][i];
    assert (c, i) in ZeroBits(anc0, n) && (c, i) !in ZeroBits(anc, n);
    forall e | e in ZeroBits(anc, n) ensures e in ZeroBits(anc0, n) {
      var (x, j) := e;
      assert Below(anc0[x], anc[x]);
    }
    CardinalityDrops(ZeroBits(anc, n), ZeroBits(anc0, n));
  }

  /** `build`: the fixpoint ends, and the result decides reachability over the
      edges between registered classes, whatever the edges are. */
  method Build(classIds: seq<int>, edges: seq<(int, int)>) returns (ti: TypeInference)
    ensures forall c, p :: IsSubclassOf(ti, c, p)
                      <==> c in classIds && p in classIds && Reaches(KnownEdges(classIds, edges), c, p)
  {
    ghost var known := KnownEdges(classIds, edges);
    var idToBit := NumberClasses(classIds);
    var anc := OwnBits(classIds, idToBit, known);
    hide Sound, Saturated, GoodUpdate, Reaches;
    var changed := true;
    while changed
      invariant Sound(classIds, known, idToBit, anc)
      invariant !changed ==> Saturated(known, anc)
      decreases |ZeroBits(anc, |classIds|)|, changed
    {
      var updates, grew := CollectUpdates(classIds, edges, idToBit, anc);
      if updates != [] {
        anc := ApplyUpdates(classIds, known, idToBit, anc, updates);
      }
      changed := grew;
    }
    ti := TypeInference(anc, |classIds|, idToBit);
    forall c, p ensures IsSubclassOf(ti, c, p) <==> c in classIds && p in classIds && Reaches(known, c, p) {
      SoundAndSaturatedDecides(classIds, known, ti, c, p);
    }
  }

  method NumberClasses(classIds: seq<int>) returns (idToBit: map<int, nat>)
    ensures BitsOf(classIds, idToBit)
  {
    idToBit := map[];
    for i := 0 to |classIds|
      invariant forall id :: id in idToBit <==> id in classIds[..i]
      invariant forall id :: id in idToBit ==> idToBit[id] < i && classIds[idToBit[id]] == id
    {
      idToBit := idToBit[classIds[i] := i];
    }
    assert classIds[..|classIds|] == classIds;
  }

  method OwnBits(classIds: seq<int>, idToBit: map<int, nat>, ghost known: set<(int, int)>) returns (anc: map<int,
                 seq<bool>>)
    requires BitsOf(classIds, idToBit)
    ensures Sound(classIds, known, idToBit, anc)
  {
    anc := map[];
    for k := 0 to |classIds|
      invariant forall c :: c in anc <==> c in classIds[..k]
      invariant forall c :: c in anc ==> SoundRow(classIds, known, idToBit, c, anc[c])
    {
      var id := classIds[k];
      var bits := seq(|classIds|, _ => false);
      bits := bits[idToBit[id] := true];
      ReachesSelf(known, id);
      assert SoundBit(classIds, known, idToBit, id, idToBit[id]);
      anc := anc[id := bits];
    }
    assert classIds[..|classIds|] == classIds;
    forall c: int ensures c in anc.Keys <==> c in idToBit.Keys {
      assert c in anc <==> c in classIds;
    }
  }
}
