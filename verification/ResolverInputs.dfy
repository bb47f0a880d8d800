/** Registries on which src/dag/src/resolver.rs does not do what its comments say. */
module ResolverInputs {
  import opened Sequences
  import opened Reachability
  import opened TopologicalOrders
  import opened Targets
  import opened Narrowing
  import opened Closures
  import opened Selections
  import opened Resolver
  import opened Requests
  import opened PolicyAgreement

  lemma NoneOffers(reg: seq<Target>, c: int)
    requires forall t :: t in reg ==> c !in t.offers
    ensures Providers(reg, c) == []
  {
    if Providers(reg, c) != [] {
      assert Providers(reg, c)[0] in Providers(reg, c);
    }
  }

  /** A request for one name. */
  lemma OneName(reg: seq<Target>, t: Target)
    requires Distinct(reg) && t in reg
    ensures SeedIds(reg, [t.name]) == {t.id} && (AbstractSeed(reg, [t.name]) <==> t.kind.Abstract?)
  {
    DistinctIds(reg, ByName(reg, t.name).value, t);
    var names := [t.name];
    assert names[0] == t.name;
  }

  // A dependency met by name alone

  /** `a` needs capability 0, which nothing offers and which carries the name of `b`. */
  ghost predicate NameOnly(ctx: Context, a: Target, b: Target) {
    && ctx.reg == [a, b] && ctx.caps == Some([b.name]) && ctx.strict
    && a.id == 0 && a.depends == {0} && a.offers == {}
    && b.id == 1 && b.depends == {} && b.offers == {} && a.name != b.name
  }

  lemma NameOnlyBasics(ctx: Context, a: Target, b: Target)
    requires NameOnly(ctx, a, b)
    ensures Distinct(ctx.reg) && Ids(ctx.reg) == {0, 1}
    ensures forall c :: Providers(ctx.reg, c) == [] && !Contested(ctx.reg, c)
    ensures Implicit(ctx, 0) == Some(1)
  {
    forall c ensures Providers(ctx.reg, c) == [] {
      NoneOffers(ctx.reg, c);
    }
    hide Providers;
    assert a in ctx.reg && b in ctx.reg;
    assert CapName(ctx.caps.value, 0) == Some(b.name);
    DistinctIds(ctx.reg, ByName(ctx.reg, b.name).value, b);
  }

  lemma NameOnlyIsPlain(ctx: Context, a: Target, b: Target)
    requires NameOnly(ctx, a, b)
    ensures {0} <= Ids(ctx.reg) && Distinct(ctx.reg) && Plain(ctx, {0}) && Full(ctx, {0}) == {0, 1}
  {
    hide Providers, Contested, Implicit, ClosureFails, Full, Pulls, CapIndex;
    NameOnlyBasics(ctx, a, b);
    assert a in ctx.reg && b in ctx.reg;
    SeedsInside(ctx, {0});
    ImplicitIsPulled(ctx, a, 0);
    FullPulls(ctx, {0}, a, 1);
    NothingMissingIff(ctx, {0});
    forall t | t in ctx.reg ensures SelfDue(ctx, {}, t) == {} {
    }
  }

  lemma NameOnlySelections(ctx: Context, a: Target, b: Target)
    requires NameOnly(ctx, a, b)
    ensures {0} <= Ids(ctx.reg) && Distinct(ctx.reg) && !ClosureFails(ctx, {0}, {}, {})
    ensures SelectNarrowed(ctx, {0}) == Some({0, 1})
    ensures SelectOne(ctx, {0}, false) == None && SelectOne(ctx, {0}, true) == Some({0, 1})
  {
    hide Full, SelectAll, SelectNarrowed, ClosureFails, OwnNamesStay, NeedsContested, Providers;
    NameOnlyIsPlain(ctx, a, b);
    NarrowedIsFull(ctx, {0});
    FastPathAgreesIff(ctx, {0});
    FastPathSucceedsIff(ctx, {0});
    NameOnlyBasics(ctx, a, b);
    assert a in ctx.reg && a.id in Full(ctx, {0}) && 0 in a.depends && Providers(ctx.reg, 0) == [];
    assert !AllProvided(ctx.reg, Full(ctx, {0}));
  }

  /** In strict mode the first closure and the loop succeed, and the fast path fails. */
  lemma FastPathDropsName() returns (ctx: Context)
    ensures ctx.strict && ctx.caps.Some? && Distinct(ctx.reg) && AllKnown(ctx.reg, ["a"])
    ensures Selected(ctx, NarrowOne, ["a"]) == None
    ensures {0} <= Ids(ctx.reg) && !ClosureFails(ctx, {0}, {}, {}) && SelectNarrowed(ctx, {0}) == Some({0, 1})
  {
    var a := Target(0, "a", File, {0}, {}, false);
    var b := Target(1, "b", File, {}, {}, false);
    ctx := Context([a, b], Some(["b"]), true);
    hide SelectOne, SelectNarrowed, ClosureFails, ByName, Ids, AbstractSeed;
    assert a in ctx.reg;
    NameOnlySelections(ctx, a, b);
    OneName(ctx.reg, a);
  }

  lemma NameOnlyOrder(ctx: Context, a: Target, b: Target)
    requires NameOnly(ctx, a, b)
    ensures PlanFor(ctx.reg, Some({0, 1}), Ordered([0, 1])) && !Reaches(PlanEdges(ctx.reg, {0, 1}), 1, 0)
  {
    var edges := PlanEdges(ctx.reg, {0, 1});
    assert edges == {};
    NoEdges(edges);
    TwoApart(edges);
  }

  lemma NoEdges(edges: set<(int, int)>)
    requires edges == {}
    ensures Acyclic(edges) && !Reaches(edges, 1, 0)
  {
    if Reaches(edges, 1, 0) {
      var c := FirstStep(edges, 1, 0);
    }
  }

  lemma TwoApart(edges: set<(int, int)>)
    requires edges == {}
    ensures KahnOrder({0, 1}, edges, [0, 1]) && LeastTopological({0, 1}, edges, [0, 1])
  {
    var s := [0, 1];
    assert s[..0] == [] && s[..1] == [0] && Elems(s[..0]) == {} && Elems(s[..1]) == {0};
    assert 0 in s && 1 in s && Elems(s) == {0, 1};
    assert Greedy({0, 1}, edges, s);
    KahnOrderIsLeast({0, 1}, edges, s);
  }

  /** The plan runs the consumer `a` before `b`, which it depends on by name. */
  lemma NameOnlyIsUnordered() returns (ctx: Context)
    ensures ctx.caps.Some? && Distinct(ctx.reg) && AllKnown(ctx.reg, ["a"]) && Implicit(ctx, 0) == Some(1)
    ensures exists a :: a in ctx.reg && a.id == 0 && a.name == "a" && 0 in a.depends
    ensures Selected(ctx, NarrowOne, ["a"]) == Some({0, 1})
    ensures PlanFor(ctx.reg, Selected(ctx, NarrowOne, ["a"]), Ordered([0, 1]))
    ensures !Reaches(PlanEdges(ctx.reg, {0, 1}), 1, 0)
  {
    var a := Target(0, "a", Abstract, {0}, {}, false);
    var b := Target(1, "b", File, {}, {}, false);
    ctx := Context([a, b], Some(["b"]), true);
    hide SelectOne, SelectNarrowed, ClosureFails, ByName, Ids, AbstractSeed, PlanFor, PlanEdges, Implicit;
    assert a in ctx.reg;
    NameOnlyBasics(ctx, a, b);
    NameOnlySelections(ctx, a, b);
    OneName(ctx.reg, a);
    NameOnlyOrder(ctx, a, b);
  }

  // Two candidates for one capability

  lemma ProvidersOfThree(a: Target, b: Target, c: Target, cap: int)
    requires cap !in a.offers && cap in c.offers
    ensures Providers([a, b, c], cap) == if cap in b.offers then [b, c] else [c]
  {
    hide Providers;
    ProvidersOfTwo(a, b, cap);
    ProvidersAppend([a, b], c, cap);
    assert [a, b] + [c] == [a, b, c];
  }

  lemma ProvidersOfTwo(a: Target, b: Target, cap: int)
    requires cap !in a.offers
    ensures Providers([a, b], cap) == if cap in b.offers then [b] else []
  {
    hide Providers;
    NoneOffers([a], cap);
    ProvidersAppend([a], b, cap);
    assert [a] + [b] == [a, b];
  }

  lemma EssentialWins(b: Target, c: Target)
    requires b.essential && !c.essential
    ensures Winner([b, c], {}) == Some(b)
  {
    var two := [b, c];
    assert two[0] == b && two[1] == c;
    assert RankFrom(0, c, {}) < RankFrom(0, b, {});
    assert Wins(two, {}, b);
  }

  lemma EssentialTaken(ctx: Context, cap: int, b: Target, c: Target)
    requires Providers(ctx.reg, cap) == [b, c] && b.essential && !c.essential && b.id != c.id
    ensures Contested(ctx.reg, cap) && Decide(ctx, cap, {}) == Take(b.id, {c.id})
  {
    hide Providers, Winner, Implicit;
    EssentialWins(b, c);
    var two := [b, c];
    assert b in two && c in two && Ids(two) == {b.id, c.id};
  }

  // A contest over a seed's own name, which the fast path does not hold

  ghost predicate OwnName(ctx: Context, a: Target, b: Target, c: Target) {
    && ctx.reg == [a, b, c] && ctx.caps == Some([a.name]) && Distinct(ctx.reg)
    && a.id == 0 && a.depends == {} && a.offers == {} && !a.kind.Abstract?
    && b.id == 1 && b.depends == {} && b.offers == {0} && b.essential
    && c.id == 2 && c.depends == {} && c.offers == {0} && !c.essential
  }

  lemma OwnNameDue(ctx: Context, a: Target, b: Target, c: Target, s: Selection)
    requires OwnName(ctx, a, b, c)
    ensures s.resolved == {0} && s.narrowed == {} ==> Offered(ctx.reg, s.resolved) == {} && Due(ctx, s) == {0}
    ensures s.resolved == {0, 1} && s.narrowed == {0} ==> Due(ctx, s) == {}
  {
    hide Providers;
    ProvidersOfThree(a, b, c, 0);
    assert a in ctx.reg && b in ctx.reg && c in ctx.reg;
    assert CapIndex(ctx.caps.value, a.name) == Some(0);
    assert b.name != a.name && c.name != a.name;
    assert SelfDue(ctx, s.narrowed, a) == {0} - s.narrowed;
    assert SelfDue(ctx, s.narrowed, b) == {} && SelfDue(ctx, s.narrowed, c) == {};
    hide SelfDue;
    if s.resolved == {0} {
      assert Offered(ctx.reg, s.resolved) == {};
      assert DueFrom(ctx, s, {}, a) == {0} - s.narrowed;
      assert a.id in s.resolved;
    }
  }

  lemma OwnNameSettles(ctx: Context, a: Target, b: Target, c: Target)
    requires OwnName(ctx, a, b, c)
    ensures {0} <= Ids(ctx.reg)
    ensures Settle(ctx, Selection({0}, {}, {})) == Some(Selection({0, 1}, {2}, {0}))
  {
    hide Decide, Due, Offered, Contested, Providers;
    assert a in ctx.reg && b in ctx.reg && c in ctx.reg;
    assert Ids(ctx.reg) == {0, 1, 2};
    var s, t := Selection({0}, {}, {}), Selection({0, 1}, {2}, {0});
    ProvidersOfThree(a, b, c, 0);
    EssentialTaken(ctx, 0, b, c);
    OwnNameDue(ctx, a, b, c, s);
    OwnNameDue(ctx, a, b, c, t);
    assert 0 in {0};
    assert !PassFails(ctx, s) && Pass(ctx, s) == t;
    NothingDue(ctx, t);
    hide Pass, PassFails;
    assert Settle(ctx, t) == Some(t);
  }

  /** The fast path selects the seed alone; the loop adds the winner of its name. */
  lemma FastPathSkipsContest() returns (ctx: Context)
    ensures ctx.caps.Some? && Distinct(ctx.reg) && {0} <= Ids(ctx.reg)
    ensures SelectOne(ctx, {0}, false) == Some({0}) && SelectNarrowed(ctx, {0}) == Some({0, 1})
  {
    var a := Target(0, "a", File, {}, {}, false);
    var b := Target(1, "b", File, {}, {0}, true);
    var c := Target(2, "c", File, {}, {0}, false);
    ctx := Context([a, b, c], Some(["a"]), true);
    hide Settle, Ids, SelectOne, SelectNarrowed;
    OwnNameSettles(ctx, a, b, c);
    SelectNarrowedIsSettled(ctx, {0});
    OwnNameFast(ctx, a, b, c);
  }

  lemma OwnNameFast(ctx: Context, a: Target, b: Target, c: Target)
    requires OwnName(ctx, a, b, c)
    ensures {0} <= Ids(ctx.reg) && SelectOne(ctx, {0}, false) == Some({0})
  {
    hide ClosureFails, ClosureSet, Contested;
    assert a in ctx.reg;
    AloneIsAll(ctx, a);
    AloneIsAll(ctx.(caps := None), a);
    assert !NeedsContested(ctx.reg, Full(ctx, {0})) by {
      forall t | t in ctx.reg && t.id == 0 ensures t == a {
        DistinctIds(ctx.reg, t, a);
      }
    }
  }

  /** A target without dependencies pulls in nothing. */
  lemma AloneIsAll(ctx: Context, a: Target)
    requires Distinct(ctx.reg) && a in ctx.reg && a.id == 0 && a.depends == {}
    ensures {0} <= Ids(ctx.reg) && Full(ctx, {0}) == {0} && !ClosureFails(ctx, {0}, {}, {})
  {
    hide ClosureFails, Full, Sources, Missing;
    forall t | t in ctx.reg && t.id == 0 ensures t == a {
      DistinctIds(ctx.reg, t, a);
    }
    SeedsInside(ctx, {0});
    FullLeast(ctx, {0}, {0});
    NothingMissingIff(ctx, {0});
  }

  // A loser that is selected all the same

  /** `b` and `c` contest capability 0, which the essential `b` wins; `c` alone
      offers capability 1. */
  ghost predicate Reentry(ctx: Context, a: Target, b: Target, c: Target) {
    && ctx.reg == [a, b, c] && Distinct(ctx.reg)
    && ctx.caps.Some? && (forall t :: t in ctx.reg ==> t.name !in ctx.caps.value)
    && a.id == 0 && a.depends == {0, 1} && a.offers == {}
    && b.id == 1 && b.depends == {} && b.offers == {0} && b.essential
    && c.id == 2 && c.depends == {} && c.offers == {0, 1} && !c.essential
  }

  lemma ReentryDecisions(ctx: Context, a: Target, b: Target, c: Target)
    requires Reentry(ctx, a, b, c)
    ensures Decide(ctx, 0, {}) == Take(1, {2}) && Contested(ctx.reg, 0) && Providers(ctx.reg, 0) != []
    ensures Decide(ctx, 1, {}) == Take(2, {}) && !Contested(ctx.reg, 1) && Providers(ctx.reg, 1) != []
  {
    hide Providers;
    ProvidersOfThree(a, b, c, 0);
    ProvidersOfThree(a, b, c, 1);
    EssentialTaken(ctx, 0, b, c);
  }

  lemma ReentryDue(ctx: Context, a: Target, b: Target, c: Target, s: Selection)
    requires Reentry(ctx, a, b, c)
    ensures s.resolved == {0} ==> Offered(ctx.reg, s.resolved) == {} && Due(ctx, s) == {0, 1} - s.narrowed
    ensures s.resolved == {0, 1, 2} ==> Due(ctx, s) == {}
  {
    forall t | t in ctx.reg ensures SelfDue(ctx, s.narrowed, t) == {} {
    }
    hide SelfDue;
    assert a in ctx.reg && b in ctx.reg && c in ctx.reg;
    if s.resolved == {0} {
      assert Offered(ctx.reg, s.resolved) == {};
      assert DueFrom(ctx, s, {}, a) == {0, 1} - s.narrowed;
      assert a.id in s.resolved;
    }
    if s.resolved == {0, 1, 2} {
      assert b.id in s.resolved && c.id in s.resolved;
      assert Offered(ctx.reg, s.resolved) == {0, 1};
    }
  }

  lemma ReentrySettles(ctx: Context, a: Target, b: Target, c: Target)
    requires Reentry(ctx, a, b, c)
    ensures {0} <= Ids(ctx.reg)
    ensures Settle(ctx, Selection({0}, {}, {})) == Some(Selection({0, 1, 2}, {2}, {0}))
  {
    hide Decide, Due, Offered, Contested, Providers;
    assert a in ctx.reg && b in ctx.reg && c in ctx.reg;
    assert Ids(ctx.reg) == {0, 1, 2};
    var t := Selection({0, 1, 2}, {2}, {0});
    ReentryFirstPass(ctx, a, b, c);
    ReentryDue(ctx, a, b, c, t);
    NothingDue(ctx, t);
    hide Pass, PassFails;
    assert Settle(ctx, t) == Some(t);
  }

  lemma NothingDue(ctx: Context, s: Selection)
    requires ctx.caps.Some? && Due(ctx, s) == {}
    ensures !PassFails(ctx, s) && Pass(ctx, s) == s
  {
    hide Due, Offered, Decide;
  }

  lemma ReentryFirstPass(ctx: Context, a: Target, b: Target, c: Target)
    requires Reentry(ctx, a, b, c)
    ensures var s := Selection({0}, {}, {});
            !PassFails(ctx, s) && Pass(ctx, s) == Selection({0, 1, 2}, {2}, {0})
  {
    hide Decide, Due, Offered, Contested, Providers;
    ReentryDue(ctx, a, b, c, Selection({0}, {}, {}));
    ReentryDecisions(ctx, a, b, c);
    assert 0 in {0, 1} && 1 in {0, 1};
    assert TakenIds(ctx, {}, {0, 1}) == {1, 2};
    assert LoserIds(ctx, {}, {0, 1}) == {2};
  }

  lemma ReentryIsContested(ctx: Context, a: Target, b: Target, c: Target)
    requires Reentry(ctx, a, b, c) && {0} <= Ids(ctx.reg)
    ensures SelectOne(ctx, {0}, false) == SelectNarrowed(ctx, {0})
  {
    hide Decide, Providers, Contested, ClosureSet, ClosureFails, SelectNarrowed;
    assert a in ctx.reg && b in ctx.reg && c in ctx.reg;
    ReentryDecisions(ctx, a, b, c);
    SeedsInside(ctx, {0});
    NothingMissingIff(ctx, {0});
    assert a.id in Full(ctx, {0}) && 0 in a.depends;
    assert NeedsContested(ctx.reg, Full(ctx, {0}));
  }

  /** A rejected target can be part of the plan all the same. */
  lemma LoserReenters() returns (ctx: Context)
    ensures Distinct(ctx.reg) && ctx.caps == Some(["x", "y"]) && AllKnown(ctx.reg, ["a"])
    ensures Selected(ctx, NarrowOne, ["a"]) == Some({0, 1, 2})
    ensures {0} <= Ids(ctx.reg)
    ensures Settle(ctx, Selection({0}, {}, {})) == Some(Selection({0, 1, 2}, {2}, {0}))
  {
    var a := Target(0, "a", File, {0, 1}, {}, false);
    var b := Target(1, "b", File, {}, {0}, true);
    var c := Target(2, "c", File, {}, {0, 1}, false);
    ctx := Context([a, b, c], Some(["x", "y"]), true);
    hide Settle, Ids, SelectOne, SelectNarrowed, ByName, AbstractSeed;
    assert a in ctx.reg;
    ReentrySettles(ctx, a, b, c);
    SelectNarrowedIsSettled(ctx, {0});
    ReentryIsContested(ctx, a, b, c);
    OneName(ctx.reg, a);
  }
}
