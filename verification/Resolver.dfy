/** src/dag/src/resolver.rs: from requested names to an execution plan. */
module Resolver {
  import opened Sequences
  import opened Reachability
  import opened TopologicalOrders
  import opened Kahn
  import opened Targets
  import opened Closures
  import opened Selections

  // Phase 2: ordering a selected set

  ghost predicate Precedes(reg: seq<Target>, p: int, n: int) {
    exists t, u :: t in reg && u in reg && t.id == p && u.id == n && t.offers * u.depends != {}
  }

  /** A selected provider of something a selected target depends on goes first. */
  ghost function PlanEdges(reg: seq<Target>, chosen: set<int>): set<(int, int)> {
    set p, n | p in chosen && n in chosen && p != n && Precedes(reg, p, n) :: (p, n)
  }

  /** The edges into the targets of `done`, from their dependencies. */
  ghost function PlanEdgesInto(reg: seq<Target>, chosen: set<int>, targets: set<int>): set<(int, int)> {
    set p, n | p in chosen && n in targets && p != n && Precedes(reg, p, n) :: (p, n)
  }

  ghost function EdgesVia(reg: seq<Target>, chosen: set<int>, n: int, caps: set<int>): set<(int, int)> {
    set t | t in reg && t.id in chosen && t.id != n && t.offers * caps != {} :: (t.id, n)
  }

  lemma PlanEdgesOneMore(reg: seq<Target>, chosen: set<int>, done: set<int>, t: Target)
    requires Distinct(reg) && t in reg
    ensures PlanEdgesInto(reg, chosen, done + {t.id}) ==
            PlanEdgesInto(reg, chosen, done) + EdgesVia(reg, chosen, t.id, t.depends)
  {
  }

  lemma EdgesViaOneMore(reg: seq<Target>, chosen: set<int>, n: int, caps: set<int>, c: int)
    ensures EdgesVia(reg, chosen, n, caps + {c}) ==
            EdgesVia(reg, chosen, n, caps) + CapEdges(Providers(reg, c), chosen, n)
  {
    forall t: Target ensures t.offers * (caps + {c}) != {} <==> t.offers * caps != {} || c in t.offers {
      assert t.offers * (caps + {c}) == t.offers * caps + if c in t.offers then {c} else {};
    }
  }

  ghost function CapEdges(providers: seq<Target>, chosen: set<int>, n: int): set<(int, int)> {
    set t | t in providers && t.id in chosen && t.id != n :: (t.id, n)
  }

  method AddCapEdges(providers: seq<Target>, n: int, chosen: set<int>,
                     inDegree0: map<int, nat>, adj0: map<int, seq<int>>, ghost es0: seq<(int, int)>)
    returns (inDegree: map<int, nat>, adj: map<int, seq<int>>, ghost es: seq<(int, int)>)
    requires Tables(chosen, inDegree0, adj0, es0) && n in chosen
    ensures Tables(chosen, inDegree, adj, es)
    ensures Elems(es) == Elems(es0) + CapEdges(providers, chosen, n)
  {
    inDegree, adj, es := inDegree0, adj0, es0;
    for i := 0 to |providers|
      invariant Tables(chosen, inDegree, adj, es)
      invariant Elems(es) == Elems(es0) + CapEdges(providers[..i], chosen, n)
    {
      var p := providers[i].id;
      CapEdgesStep(providers, i, chosen, n);
      if p in chosen && p != n {
        TablesAdd(chosen, inDegree, adj, es, p, n);
        assert inDegree.Keys == chosen;
        hide Tables;
        adj := adj[p := Row(adj, p) + [n]];
        inDegree := inDegree[n := inDegree[n] + 1];
        ElemsAppend(es, (p, n));
        es := es + [(p, n)];
      }
    }
    assert providers[..|providers|] == providers;
  }

  lemma CapEdgesStep(providers: seq<Target>, i: nat, chosen: set<int>, n: int)
    requires i < |providers|
    ensures CapEdges(providers[..i + 1], chosen, n) ==
            CapEdges(providers[..i], chosen, n) +
            if providers[i].id in chosen && providers[i].id != n then {(providers[i].id, n)} else {}
  {
  }

  method AddTargetEdges(reg: seq<Target>, t: Target, chosen: set<int>,
                        inDegree0: map<int, nat>, adj0: map<int, seq<int>>, ghost es0: seq<(int, int)>)
    returns (inDegree: map<int, nat>, adj: map<int, seq<int>>, ghost es: seq<(int, int)>)
    requires Tables(chosen, inDegree0, adj0, es0) && t.id in chosen
    ensures Tables(chosen, inDegree, adj, es)
    ensures Elems(es) == Elems(es0) + EdgesVia(reg, chosen, t.id, t.depends)
  {
    hide Tables, Providers, CapEdges, EdgesVia;
    inDegree, adj, es := inDegree0, adj0, es0;
    var caps := Enumerate(t.depends);
    EdgesViaNone(reg, chosen, t.id);
    for i := 0 to |caps|
      invariant Tables(chosen, inDegree, adj, es)
      invariant Elems(es) == Elems(es0) + EdgesVia(reg, chosen, t.id, Elems(caps[..i]))
    {
      assert caps[..i + 1] == caps[..i] + [caps[i]];
      ElemsAppend(caps[..i], caps[i]);
      EdgesViaOneMore(reg, chosen, t.id, Elems(caps[..i]), caps[i]);
      inDegree, adj, es := AddCapEdges(Providers(reg, caps[i]), t.id, chosen, inDegree, adj, es);
    }
    assert caps[..|caps|] == caps;
  }

  lemma EdgesViaNone(reg: seq<Target>, chosen: set<int>, n: int)
    ensures EdgesVia(reg, chosen, n, Elems<int>([])) == {}
  {
  }

  // The same in the fields of the targets

  /** `u` needs something that another target of `s` offers. */
  ghost predicate WaitsFor(reg: seq<Target>, s: set<int>, u: Target) {
    exists t :: t in reg && t.id in s && t != u && t.offers * u.depends != {}
  }

  /** Targets of which none can go first. */
  ghost predicate Deadlocked(reg: seq<Target>, s: set<int>) {
    s != {} && forall u | u in reg && u.id in s :: WaitsFor(reg, s, u)
  }

  /** Some of the targets of `chosen` cannot be ordered. */
  ghost predicate Stuck(reg: seq<Target>, chosen: set<int>) {
    exists s :: s <= chosen && Deadlocked(reg, s)
  }

  /** Each chosen target once, after all others whose offers it needs. */
  ghost predicate Runs(reg: seq<Target>, chosen: set<int>, order: seq<int>) {
    && NoDup(order) && Elems(order) == chosen
    && forall t, u | t in reg && u in reg && t != u && t.id in chosen && u.id in chosen && t.offers * u.depends != {} ::
         Before(order, t.id, u.id)
  }

  /** A target comes after one of greater id only while it waits for that one, or for
      one that comes between them. */
  ghost predicate RunsLeast(reg: seq<Target>, order: seq<int>) {
    forall i, j :: 0 <= i < j < |order| && order[j] < order[i] ==> WaitsSince(reg, order, i, j)
  }

  ghost predicate WaitsSince(reg: seq<Target>, order: seq<int>, i: int, j: int)
    requires 0 <= i < j < |order|
  {
    exists k, t, u :: i <= k < j && t in reg && u in reg && t.id == order[k] && u.id == order[j] &&
                      t.offers * u.depends != {}
  }

  lemma PlanEdgeMeans(reg: seq<Target>, chosen: set<int>, t: Target, u: Target)
    requires Distinct(reg) && t in reg && u in reg && t.id in chosen && u.id in chosen
    ensures (t.id, u.id) in PlanEdges(reg, chosen) <==> t != u && t.offers * u.depends != {}
  {
    if Precedes(reg, t.id, u.id) {
      var t', u' :| t' in reg && u' in reg && t'.id == t.id && u'.id == u.id && t'.offers * u'.depends != {};
      DistinctIds(reg, t, t');
      DistinctIds(reg, u, u');
    }
    DistinctIds(reg, t, u);
  }

  lemma OrderMeans(reg: seq<Target>, chosen: set<int>, order: seq<int>)
    requires Distinct(reg) && chosen <= Ids(reg)
    requires KahnOrder(chosen, PlanEdges(reg, chosen), order) && LeastTopological(chosen, PlanEdges(reg, chosen), order)
    ensures Runs(reg, chosen, order) && RunsLeast(reg, order)
  {
    var edges := PlanEdges(reg, chosen);
    assert Within(edges, chosen);
    assert Topological(chosen, edges, order);
    hide KahnOrder, PlanEdges, LeastTopological, Topological, WaitsSince;
    assert NoDup(order) && Elems(order) == chosen by {
      TopologicalBasics(chosen, edges, order);
    }
    forall t, u | t in reg && u in reg && t != u && t.id in chosen && u.id in chosen && t.offers * u.depends != {}
      ensures Before(order, t.id, u.id)
    {
      PlanEdgeMeans(reg, chosen, t, u);
      EdgeIsBefore(chosen, edges, order, t.id, u.id);
    }
    forall i: nat, j: nat | i < j < |order| && order[j] < order[i] ensures WaitsSince(reg, order, i, j) {
      WaitsSinceHolds(reg, chosen, order, i, j);
    }
  }

  lemma TopologicalBasics(nodes: set<int>, edges: set<(int, int)>, s: seq<int>)
    requires Topological(nodes, edges, s)
    ensures NoDup(s) && Elems(s) == nodes
  {
  }

  lemma WaitsSinceHolds(reg: seq<Target>, chosen: set<int>, order: seq<int>, i: nat, j: nat)
    requires KahnOrder(chosen, PlanEdges(reg, chosen), order) && Within(PlanEdges(reg, chosen), chosen)
    requires i < j < |order| && order[j] < order[i]
    ensures WaitsSince(reg, order, i, j)
  {
    var edges := PlanEdges(reg, chosen);
    hide KahnOrder, NoDup, Elems;
    KahnOrderMeans(chosen, edges, order);
    var k :| i <= k < j && (order[k], order[j]) in edges;
    assert Precedes(reg, order[k], order[j]);
    var t, u :| t in reg && u in reg && t.id == order[k] && u.id == order[j] && t.offers * u.depends != {};
  }

  /** The ordering edges have a cycle exactly when some targets are deadlocked. */
  lemma StuckMeans(reg: seq<Target>, chosen: set<int>)
    requires Distinct(reg) && chosen <= Ids(reg)
    ensures Acyclic(PlanEdges(reg, chosen)) <==> !Stuck(reg, chosen)
  {
    hide PlanEdges, Acyclic, Deadlocked, Preceded;
    var edges := PlanEdges(reg, chosen);
    forall e | e in edges ensures e.0 in chosen && e.1 in chosen {
      var (p, n) := e;
      PlanWithin(reg, chosen);
    }
    if !Acyclic(edges) {
      var a := SomeCycle(edges);
      var s := CycleIsPreceded(edges, chosen, a);
      CycleIsDeadlock(reg, chosen, s);
    }
    if Stuck(reg, chosen) {
      var s :| s <= chosen && Deadlocked(reg, s);
      DeadlockIsCycle(reg, chosen, s);
    }
  }

  lemma PlanWithin(reg: seq<Target>, chosen: set<int>)
    ensures Within(PlanEdges(reg, chosen), chosen)
  {
  }

  lemma CycleIsDeadlock(reg: seq<Target>, chosen: set<int>, s: set<int>)
    requires Distinct(reg) && s != {} && s <= chosen <= Ids(reg)
    requires forall x :: x in s ==> Preceded(PlanEdges(reg, chosen), s, x)
    ensures Deadlocked(reg, s)
  {
    hide PlanEdges, Preceded;
    forall u | u in reg && u.id in s ensures WaitsFor(reg, s, u) {
      var y := Predecessor(PlanEdges(reg, chosen), s, u.id);
      assert y in Ids(reg);
      var t :| t in reg && t.id == y;
      PlanEdgeMeans(reg, chosen, t, u);
    }
  }

  lemma DeadlockIsCycle(reg: seq<Target>, chosen: set<int>, s: set<int>)
    requires Distinct(reg) && s <= chosen <= Ids(reg) && Deadlocked(reg, s)
    ensures !Acyclic(PlanEdges(reg, chosen))
  {
    hide PlanEdges, Preceded, WaitsFor, OnCycle;
    var edges := PlanEdges(reg, chosen);
    forall x | x in s ensures Preceded(edges, s, x) {
      assert x in Ids(reg);
      var u :| u in reg && u.id == x;
      var t := Awaited(reg, s, u);
      PlanEdgeMeans(reg, chosen, t, u);
      PrecededBy(edges, s, t.id, x);
    }
    var x := Inhabited(s);
    var c := PredecessorsForceCycle(edges, s, x);
  }

  lemma Awaited(reg: seq<Target>, s: set<int>, u: Target) returns (t: Target)
    requires WaitsFor(reg, s, u)
    ensures t in reg && t.id in s && t != u && t.offers * u.depends != {}
  {
    t :| t in reg && t.id in s && t != u && t.offers * u.depends != {};
  }

  /** `plan_from_set`: the least topological order of the chosen targets. */
  method PlanFromSet(reg: seq<Target>, chosen: set<int>) returns (r: Option<seq<int>>)
    requires Distinct(reg) && chosen <= Ids(reg)
    ensures r.Some? <==> Acyclic(PlanEdges(reg, chosen))
    ensures r.Some? ==> KahnOrder(chosen, PlanEdges(reg, chosen), r.value)
    ensures r.Some? ==> LeastTopological(chosen, PlanEdges(reg, chosen), r.value)
    ensures r.None? <==> Stuck(reg, chosen)
    ensures r.Some? ==> Runs(reg, chosen, r.value) && RunsLeast(reg, r.value)
  {
    hide EdgesVia, Tables, ById, KahnOrder, LeastTopological, Acyclic, PlanEdges, PlanEdgesInto, Stuck, Runs, RunsLeast;
    StuckMeans(reg, chosen);
    var inDegree: map<int, nat> := map n | n in chosen :: 0;
    var adj: map<int, seq<int>> := map[];
    ghost var es: seq<(int, int)> := [];
    TablesEmpty(chosen, inDegree);
    PlanEdgesNone(reg, chosen);
    var order := Enumerate(chosen);
    for i := 0 to |order|
      invariant Tables(chosen, inDegree, adj, es)
      invariant Elems(es) == PlanEdgesInto(reg, chosen, Elems(order[..i]))
    {
      assert order[..i + 1] == order[..i] + [order[i]];
      ElemsAppend(order[..i], order[i]);
      assert order[i] in Ids(reg);
      var t := ById(reg, order[i]);
      PlanEdgesOneMore(reg, chosen, Elems(order[..i]), t.value);
      inDegree, adj, es := AddTargetEdges(reg, t.value, chosen, inDegree, adj, es);
    }
    assert order[..|order|] == order;
    PlanEdgesAll(reg, chosen);
    NoDupCardinality(order);
    var sorted := KahnSort(inDegree, adj, |order|, chosen, es);
    if sorted.Partial? {
      return None;
    }
    OrderMeans(reg, chosen, sorted.order);
    return Some(sorted.order);
  }

  lemma PlanEdgesNone(reg: seq<Target>, chosen: set<int>)
    ensures PlanEdgesInto(reg, chosen, Elems<int>([])) == Elems<(int, int)>([])
  {
  }

  lemma PlanEdgesAll(reg: seq<Target>, chosen: set<int>)
    ensures PlanEdgesInto(reg, chosen, chosen) == PlanEdges(reg, chosen)
  {
  }

  // Phase 1, both policies

  /** Include-all: everything the seeds pull in, without the name fallback. */
  ghost function SelectAll(ctx: Context, seeds: set<int>): Option<set<int>> {
    var all := ctx.(caps := None);
    if ClosureFails(all, seeds, {}, {}) then None else Some(ClosureSet(all, seeds, {}, {}))
  }

  ghost predicate NeedsContested(reg: seq<Target>, ids: set<int>) {
    exists t, c :: t in reg && t.id in ids && c in t.depends && Contested(reg, c)
  }

  /** The narrowing loop and the guarded expansion after it. */
  ghost function SelectNarrowed(ctx: Context, seeds: set<int>): Option<set<int>>
    requires ctx.caps.Some? && seeds <= Ids(ctx.reg)
  {
    var settled := Settle(ctx, Selection(seeds, {}, {}));
    if settled.None? then None
    else
      var s := settled.value;
      var offered := Offered(ctx.reg, s.resolved);
      if ClosureFails(ctx, s.resolved, offered, s.rejected) then None
      else Some(s.resolved + ClosureSet(ctx, s.resolved, offered, s.rejected))
  }

  /** Narrow-one: the fast path when nothing is contested, the loop otherwise. */
  ghost function SelectOne(ctx: Context, seeds: set<int>, abstractSeed: bool): Option<set<int>>
    requires ctx.caps.Some? && seeds <= Ids(ctx.reg)
  {
    if ClosureFails(ctx, seeds, {}, {}) then None
    else if !abstractSeed && !NeedsContested(ctx.reg, ClosureSet(ctx, seeds, {}, {})) then SelectAll(ctx, seeds)
    else SelectNarrowed(ctx, seeds)
  }

  datatype Planned = Ordered(order: seq<int>) | Circular | Unselected

  /** The plan for a selection: its least order, or which failure it is. */
  ghost predicate PlanFor(reg: seq<Target>, chosen: Option<set<int>>, r: Planned) {
    && (r.Unselected? <==> chosen.None?)
    && (r.Circular? <==> chosen.Some? && !Acyclic(PlanEdges(reg, chosen.value)))
    && (r.Ordered? ==> KahnOrder(chosen.value, PlanEdges(reg, chosen.value), r.order))
    && (r.Ordered? ==> LeastTopological(chosen.value, PlanEdges(reg, chosen.value), r.order))
  }

  /** A selection has one plan: runs that visit hash sets in different orders
      return the same plan or all fail alike. */
  lemma PlanUnique(reg: seq<Target>, chosen: Option<set<int>>, r: Planned, r': Planned)
    requires PlanFor(reg, chosen, r) && PlanFor(reg, chosen, r')
    ensures r == r'
  {
    if r.Ordered? && r'.Ordered? {
      KahnOrderUnique(chosen.value, PlanEdges(reg, chosen.value), r.order, r'.order);
    }
  }

  /** Of two members of a plan, `p` comes before `n` in every order that the ordering
      edges admit if and only if those edges lead from `p` to `n`. */
  lemma PlanOrderForcedIff(reg: seq<Target>, chosen: set<int>, order: seq<int>, p: int, n: int)
    requires PlanFor(reg, Some(chosen), Ordered(order)) && p in chosen && n in chosen && p != n
    ensures (forall s :: Topological(chosen, PlanEdges(reg, chosen), s) ==> Before(s, p, n))
            <==> Reaches(PlanEdges(reg, chosen), p, n)
  {
    hide Topological, Precedes;
    assert Within(PlanEdges(reg, chosen), chosen);
    OrderForcedIff(chosen, PlanEdges(reg, chosen), order, p, n);
  }

  /** What a plan, or the lack of one, means for the selected targets. */
  lemma PlanMeans(reg: seq<Target>, chosen: set<int>, r: Planned)
    requires Distinct(reg) && chosen <= Ids(reg) && PlanFor(reg, Some(chosen), r)
    ensures !r.Unselected? && (r.Circular? <==> Stuck(reg, chosen))
    ensures r.Ordered? ==> Runs(reg, chosen, r.order) && RunsLeast(reg, r.order)
  {
    hide Stuck, Runs, RunsLeast, KahnOrder, LeastTopological, Acyclic, PlanEdges;
    StuckMeans(reg, chosen);
    if r.Ordered? {
      OrderMeans(reg, chosen, r.order);
    }
  }

  method ResolveAll(ctx: Context, seeds: seq<int>) returns (r: Planned)
    requires Distinct(ctx.reg)
    ensures PlanFor(ctx.reg, SelectAll(ctx, Elems(seeds)), r)
  {
    hide ClosureFails, ClosureSet, Acyclic, KahnOrder, LeastTopological, PlanEdges, Stuck, Runs, RunsLeast, Unmet,
         ClosedPast;
    var all := ctx.(caps := None);
    var needed := TransitiveClosure(all, seeds, {}, {});
    if needed.None? {
      return Unselected;
    }
    ClosureRegistered(all, Elems(seeds), {}, {});
    var order := PlanFromSet(ctx.reg, needed.value);
    return if order.None? then Circular else Ordered(order.value);
  }

  lemma NeedsContestedMeans(reg: seq<Target>, ids: set<int>)
    requires Distinct(reg)
    ensures NeedsContested(reg, ids) <==>
            exists t, c :: t in reg && t.id in ids && c in t.depends && TwoOffer(reg, c)
  {
    forall c ensures Contested(reg, c) <==> TwoOffer(reg, c) {
      ContestedMeans(reg, c);
    }
    hide Contested, TwoOffer;
  }

  /** The scan that looks for a contested capability among the needed ones. */
  method HasContested(reg: seq<Target>, ids: set<int>) returns (found: bool)
    requires Distinct(reg) && ids <= Ids(reg)
    ensures found <==> NeedsContested(reg, ids)
    ensures found <==> exists t, c :: t in reg && t.id in ids && c in t.depends && TwoOffer(reg, c)
  {
    NeedsContestedMeans(reg, ids);
    hide Contested, ById, TwoOffer;
    var order := Enumerate(ids);
    for i := 0 to |order|
      invariant forall t, c :: t in reg && t.id in order[..i] && c in t.depends ==> !Contested(reg, c)
    {
      assert order[i] in Ids(reg);
      var target := ById(reg, order[i]);
      var t := target.value;
      var caps := Enumerate(t.depends);
      for k := 0 to |caps|
        invariant forall j :: 0 <= j < k ==> !Contested(reg, caps[j])
      {
        if Contested(reg, caps[k]) {
          assert caps[k] in t.depends;
          return true;
        }
      }
      forall u, c | u in reg && u.id in order[..i + 1] && c in u.depends ensures !Contested(reg, c) {
        if u.id == order[i] {
          DistinctIds(reg, u, t);
          assert c in caps;
        } else {
          assert u.id in order[..i];
        }
      }
    }
    assert order[..|order|] == order;
    return false;
  }

  /** `resolve_narrow_one`. Every hash set is walked in an order of the machine's
      choosing; the selection it must agree with has no order in it. */
  method ResolveNarrowOne(ctx: Context, seeds: seq<int>, abstractSeed: bool) returns (r: Planned)
    requires ctx.caps.Some? && Distinct(ctx.reg) && Elems(seeds) <= Ids(ctx.reg)
    ensures PlanFor(ctx.reg, SelectOne(ctx, Elems(seeds), abstractSeed), r)
  {
    hide PlanFor, ClosureFails, ClosureSet, NeedsContested, Settle, SelectAll;
    var closure := TransitiveClosure(ctx, seeds, {}, {});
    if closure.None? {
      NoPlan(ctx.reg);
      return Unselected;
    }
    ClosureRegistered(ctx, Elems(seeds), {}, {});
    var contested := HasContested(ctx.reg, closure.value);
    if !abstractSeed && !contested {
      r := ResolveAll(ctx, seeds);
      return;
    }
    var settled := RunFixpoint(ctx, Elems(seeds));
    if settled.None? {
      NoPlan(ctx.reg);
      return Unselected;
    }
    var s := settled.value;
    var fullProvides := ComputeFullProvides(ctx.reg, s.resolved);
    var order := Enumerate(s.resolved);
    var expansion := TransitiveClosure(ctx, order, fullProvides, s.rejected);
    if expansion.None? {
      NoPlan(ctx.reg);
      return Unselected;
    }
    ClosureRegistered(ctx, s.resolved, fullProvides, s.rejected);
    SettledRegistered(ctx, Selection(Elems(seeds), {}, {}));
    var combined := s.resolved + expansion.value;
    var planned := PlanFromSet(ctx.reg, combined);
    PlanHolds(ctx.reg, combined, planned);
    return if planned.None? then Circular else Ordered(planned.value);
  }

  lemma NoPlan(reg: seq<Target>)
    ensures PlanFor(reg, None, Unselected)
  {
  }

  lemma PlanHolds(reg: seq<Target>, chosen: set<int>, r: Option<seq<int>>)
    requires r.Some? <==> Acyclic(PlanEdges(reg, chosen))
    requires r.Some? ==> KahnOrder(chosen, PlanEdges(reg, chosen), r.value)
    requires r.Some? ==> LeastTopological(chosen, PlanEdges(reg, chosen), r.value)
    ensures PlanFor(reg, Some(chosen), if r.None? then Circular else Ordered(r.value))
  {
  }

  lemma ClosureRegistered(ctx: Context, seeds: set<int>, sat: set<int>, rej: set<int>)
    ensures ClosureSet(ctx, seeds, sat, rej) <= Ids(ctx.reg)
  {
  }

  lemma {:induction false} SettledRegistered(ctx: Context, s: Selection)
    requires ctx.caps.Some? && s.resolved <= Ids(ctx.reg)
    ensures Settle(ctx, s).Some? ==> s.resolved <= Settle(ctx, s).value.resolved <= Ids(ctx.reg)
    decreases |Ids(ctx.reg) - s.resolved|
  {
    hide Pass, PassFails;
    if !PassFails(ctx, s) {
      PassStaysRegistered(ctx, s);
      if Pass(ctx, s).resolved != s.resolved {
        GrowthShrinksRest(Ids(ctx.reg), s.resolved, Pass(ctx, s).resolved);
        SettledRegistered(ctx, Pass(ctx, s));
      }
    }
  }

  // What a selection guarantees

  /** `c` is offered by a selected target; or it has no provider at all, and then
      the target of that name is selected, which strict mode insists exists. */
  ghost predicate Supplied(ctx: Context, ids: set<int>, c: int) {
    || c in Offered(ctx.reg, ids)
    || (&& Providers(ctx.reg, c) == []
        && (Implicit(ctx, c).Some? ==> Implicit(ctx, c).value in ids)
        && (ctx.strict ==> Implicit(ctx, c).Some?))
  }

  ghost predicate SelfSufficient(ctx: Context, ids: set<int>) {
    forall t, c :: t in ctx.reg && t.id in ids && c in t.depends ==> Supplied(ctx, ids, c)
  }

  lemma OfferedMonotone(reg: seq<Target>, a: set<int>, b: set<int>)
    requires a <= b
    ensures Offered(reg, a) <= Offered(reg, b)
  {
  }

  /** Every contest that was settled put its winner into the selection. */
  lemma PassOffersNarrowed(ctx: Context, s: Selection)
    requires ctx.caps.Some? && !PassFails(ctx, s) && s.narrowed <= Offered(ctx.reg, s.resolved)
    ensures Pass(ctx, s).narrowed <= Offered(ctx.reg, Pass(ctx, s).resolved)
  {
    hide Decide, Contested, Due;
    var s', fp := Pass(ctx, s), Offered(ctx.reg, s.resolved);
    OfferedMonotone(ctx.reg, s.resolved, s'.resolved);
    forall c | c in s'.narrowed && c !in s.narrowed ensures c in Offered(ctx.reg, s'.resolved) {
      NarrowedWasDue(ctx, s, fp, Due(ctx, s), c);
      ContestTaken(ctx, c, fp);
      TakenIsResolved(ctx, s, c);
      var t :| t in ctx.reg && t.id == Decide(ctx, c, fp).id && c in t.offers;
      assert t.id in s'.resolved;
    }
  }

  /** A contest that does not fail is won by a provider. */
  lemma ContestTaken(ctx: Context, c: int, fp: set<int>)
    requires Contested(ctx.reg, c) && !Decide(ctx, c, fp).Fail?
    ensures Decide(ctx, c, fp).Take?
    ensures exists t :: t in ctx.reg && t.id == Decide(ctx, c, fp).id && c in t.offers
  {
    hide Winner;
    TakenOffers(ctx, c, fp);
  }

  lemma TakenIsResolved(ctx: Context, s: Selection, c: int)
    requires ctx.caps.Some? && c in Due(ctx, s) && Decide(ctx, c, Offered(ctx.reg, s.resolved)).Take?
    ensures Decide(ctx, c, Offered(ctx.reg, s.resolved)).id in Pass(ctx, s).resolved
  {
    hide Decide;
  }

  /** A pass that adds no target leaves nothing unsupplied. */
  lemma StableIsSelfSufficient(ctx: Context, s: Selection)
    requires ctx.caps.Some? && !PassFails(ctx, s) && s.narrowed <= Offered(ctx.reg, s.resolved)
    requires Pass(ctx, s).resolved == s.resolved
    ensures SelfSufficient(ctx, s.resolved)
  {
    hide Decide, Apply, Supplied;
    var fp := Offered(ctx.reg, s.resolved);
    forall t, c | t in ctx.reg && t.id in s.resolved && c in t.depends ensures Supplied(ctx, s.resolved, c) {
      if c in fp {
        OfferedIsSupplied(ctx, s.resolved, c);
      } else {
        assert c in DueFrom(ctx, s, fp, t);
        assert c in Due(ctx, s);
        assert !Decide(ctx, c, fp).Fail?;
        if Decide(ctx, c, fp).Take? {
          TakenIsResolved(ctx, s, c);
        }
        DecidedIsSupplied(ctx, s.resolved, c, fp);
      }
    }
  }

  lemma OfferedIsSupplied(ctx: Context, ids: set<int>, c: int)
    requires c in Offered(ctx.reg, ids)
    ensures Supplied(ctx, ids, c)
  {
  }

  lemma DecidedIsSupplied(ctx: Context, ids: set<int>, c: int, fp: set<int>)
    requires !Decide(ctx, c, fp).Fail? && (Decide(ctx, c, fp).Take? ==> Decide(ctx, c, fp).id in ids)
    ensures Supplied(ctx, ids, c)
  {
    if Providers(ctx.reg, c) != [] {
      TakenOffers(ctx, c, fp);
      var t :| t in ctx.reg && t.id == Decide(ctx, c, fp).id && c in t.offers;
      assert t.id in ids;
    }
  }

  lemma {:induction false} SettledIsSelfSufficient(ctx: Context, s: Selection)
    requires ctx.caps.Some? && s.resolved <= Ids(ctx.reg) && s.narrowed <= Offered(ctx.reg, s.resolved)
    ensures Settle(ctx, s).Some? ==> SelfSufficient(ctx, Settle(ctx, s).value.resolved)
    decreases |Ids(ctx.reg) - s.resolved|
  {
    hide Pass, PassFails, SelfSufficient, Offered;
    if !PassFails(ctx, s) {
      PassStaysRegistered(ctx, s);
      PassOffersNarrowed(ctx, s);
      if Pass(ctx, s).resolved == s.resolved {
        StableIsSelfSufficient(ctx, s);
      } else {
        GrowthShrinksRest(Ids(ctx.reg), s.resolved, Pass(ctx, s).resolved);
        SettledIsSelfSufficient(ctx, Pass(ctx, s));
      }
    }
  }

  /** The guarded expansion after the loop finds nothing to add and nothing missing. */
  lemma ExpansionAddsNothing(ctx: Context, ids: set<int>, rejected: set<int>)
    requires Distinct(ctx.reg) && SelfSufficient(ctx, ids) && ids <= Ids(ctx.reg)
    ensures !ClosureFails(ctx, ids, Offered(ctx.reg, ids), rejected)
    ensures ClosureSet(ctx, ids, Offered(ctx.reg, ids), rejected) == ids
  {
    var sat := Offered(ctx.reg, ids);
    var edges := PullEdges(ctx, sat, rejected);
    forall a, b | (a, b) in edges && a in ids ensures b in ids {
      var t :| t in ctx.reg && t.id == a && Pulls(ctx, sat, rejected, t, b);
      var c :| c in t.depends && c !in sat && b in Sources(ctx, c);
      assert Supplied(ctx, ids, c);
    }
    forall x | Pulled(ctx, ids, sat, rejected, x) ensures x in ids {
      var s :| s in ids && Reaches(edges, s, x);
      ClosedHolds(edges, ids, s, x);
    }
    forall x | x in ids ensures Pulled(ctx, ids, sat, rejected, x) && !Bad(ctx, sat, x) {
      ReachesSelf(edges, x);
      forall t | t in ctx.reg && t.id == x ensures !Blocked(ctx, sat, t) {
        forall c | c in t.depends && c !in sat ensures !Missing(ctx, c) {
          assert Supplied(ctx, ids, c);
        }
      }
    }
  }

  /** The loop's result is the selection, without the expansion. */
  lemma SelectNarrowedIsSettled(ctx: Context, seeds: set<int>)
    requires ctx.caps.Some? && Distinct(ctx.reg) && seeds <= Ids(ctx.reg)
    ensures var settled := Settle(ctx, Selection(seeds, {}, {}));
            SelectNarrowed(ctx, seeds) == if settled.Some? then Some(settled.value.resolved) else None
    ensures SelectNarrowed(ctx, seeds).Some? ==> SelfSufficient(ctx, SelectNarrowed(ctx, seeds).value)
  {
    hide ClosureFails, ClosureSet, SelfSufficient, Offered, Settle;
    var s0 := Selection(seeds, {}, {});
    SettledRegistered(ctx, s0);
    SettledIsSelfSufficient(ctx, s0);
    var settled := Settle(ctx, s0);
    if settled.Some? {
      ExpansionAddsNothing(ctx, settled.value.resolved, settled.value.rejected);
      assert settled.value.resolved + settled.value.resolved == settled.value.resolved;
    }
  }

  /** Include-all selections hold every provider of everything they need. */
  lemma AllIsSelfSufficient(ctx: Context, seeds: set<int>)
    requires Distinct(ctx.reg) && SelectAll(ctx, seeds).Some?
    ensures SelfSufficient(ctx.(caps := None), SelectAll(ctx, seeds).value)
  {
    var all := ctx.(caps := None);
    var ids := ClosureSet(all, seeds, {}, {});
    forall t, c | t in all.reg && t.id in ids && c in t.depends ensures Supplied(all, ids, c) {
      assert !Bad(all, {}, t.id);
      assert !Blocked(all, {}, t);
      assert !Missing(all, c);
      if Providers(all.reg, c) != [] {
        var p := Providers(all.reg, c)[0];
        assert p in Providers(all.reg, c);
        var id := p.id;
        assert id in Sources(all, c);
        assert Pulls(all, {}, {}, t, id);
        PulledStep(all, seeds, {}, {}, t, id);
        assert p.id in ids;
        assert c in Offered(all.reg, ids);
      }
    }
  }
}
