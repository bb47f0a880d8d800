/** The two selection policies of src/dag/src/resolver.rs and the fast path between
    them: what each selects when nothing needed is contested, and exactly when they
    agree. */
module PolicyAgreement {
  import opened Sequences
  import opened Reachability
  import opened Targets
  import opened Closures
  import opened Selections
  import opened Resolver

  ghost function All(ctx: Context): Context {
    ctx.(caps := None)
  }

  /** What the seeds pull in through providers alone. */
  ghost function Core(ctx: Context, seeds: set<int>): set<int> {
    ClosureSet(All(ctx), seeds, {}, {})
  }

  /** What they pull in with the name fallback. */
  ghost function Full(ctx: Context, seeds: set<int>): set<int> {
    ClosureSet(ctx, seeds, {}, {})
  }

  ghost predicate ProviderClosed(reg: seq<Target>, ids: set<int>) {
    forall t, c, p :: t in reg && t.id in ids && c in t.depends && p in Providers(reg, c) ==> p.id in ids
  }

  lemma ProviderIsPulled(ctx: Context, t: Target, c: int, p: Target)
    requires c in t.depends && p in Providers(ctx.reg, c)
    ensures p.id in Ids(ctx.reg) && Pulls(ctx, {}, {}, t, p.id)
  {
    assert p.id in Sources(ctx, c);
  }

  lemma SeedsInside(ctx: Context, seeds: set<int>)
    requires seeds <= Ids(ctx.reg)
    ensures seeds <= Full(ctx, seeds) <= Ids(ctx.reg)
  {
    forall s | s in seeds ensures s in Full(ctx, seeds) {
      ReachesSelf(PullEdges(ctx, {}, {}), s);
    }
  }

  /** What a member of the closure pulls in is in the closure. */
  lemma FullPulls(ctx: Context, seeds: set<int>, t: Target, p: int)
    requires t in ctx.reg && t.id in Full(ctx, seeds) && p in Ids(ctx.reg) && Pulls(ctx, {}, {}, t, p)
    ensures p in Full(ctx, seeds)
  {
    PulledStep(ctx, seeds, {}, {}, t, p);
  }

  lemma CoreClosed(ctx: Context, seeds: set<int>)
    requires seeds <= Ids(ctx.reg)
    ensures seeds <= Core(ctx, seeds) && ProviderClosed(ctx.reg, Core(ctx, seeds))
  {
    hide ClosureSet, Pulls;
    SeedsInside(All(ctx), seeds);
    forall t, c, p | t in ctx.reg && t.id in Core(ctx, seeds) && c in t.depends && p in Providers(ctx.reg, c)
      ensures p.id in Core(ctx, seeds)
    {
      ProviderIsPulled(All(ctx), t, c, p);
      FullPulls(All(ctx), seeds, t, p.id);
    }
  }

  /** A set that holds the seeds and all that its members pull in holds the closure. */
  lemma FullLeast(ctx: Context, seeds: set<int>, other: set<int>)
    requires seeds <= other
    requires forall t, p :: t in ctx.reg && t.id in other && Pulls(ctx, {}, {}, t, p) ==> p in other
    ensures Full(ctx, seeds) <= other
  {
    hide Pulls;
    var edges := PullEdges(ctx, {}, {});
    forall a, b | (a, b) in edges && a in other ensures b in other {
      var t :| t in ctx.reg && t.id == a && Pulls(ctx, {}, {}, t, b);
    }
    forall x | x in Full(ctx, seeds) ensures x in other {
      var s :| s in seeds && Reaches(edges, s, x);
      ClosedHolds(edges, other, s, x);
    }
  }

  /** Nothing smaller that holds the seeds is closed under providers. */
  lemma CoreLeast(ctx: Context, seeds: set<int>, other: set<int>)
    requires seeds <= other && ProviderClosed(ctx.reg, other)
    ensures Core(ctx, seeds) <= other
  {
    forall t, b | t in ctx.reg && t.id in other && Pulls(All(ctx), {}, {}, t, b) ensures b in other {
      var c :| c in t.depends && b in Sources(All(ctx), c);
      var p :| p in Providers(ctx.reg, c) && p.id == b;
    }
    FullLeast(All(ctx), seeds, other);
  }

  lemma CoreInFull(ctx: Context, seeds: set<int>)
    requires seeds <= Ids(ctx.reg)
    ensures Core(ctx, seeds) <= Full(ctx, seeds)
  {
    hide ClosureSet, Pulls;
    SeedsInside(ctx, seeds);
    forall t, c, p | t in ctx.reg && t.id in Full(ctx, seeds) && c in t.depends && p in Providers(ctx.reg, c)
      ensures p.id in Full(ctx, seeds)
    {
      ProviderIsPulled(ctx, t, c, p);
      FullPulls(ctx, seeds, t, p.id);
    }
    CoreLeast(ctx, seeds, Full(ctx, seeds));
  }

  // The name fallback

  /** Every name that stands in for a provider is in the core anyway. */
  ghost predicate NamesStayInCore(ctx: Context, seeds: set<int>) {
    forall t, c | t in ctx.reg && t.id in Core(ctx, seeds) && c in t.depends && Providers(ctx.reg, c) == [] ::
      Implicit(ctx, c).Some? ==> Implicit(ctx, c).value in Core(ctx, seeds)
  }

  ghost predicate AllProvided(reg: seq<Target>, ids: set<int>) {
    forall t, c | t in reg && t.id in ids && c in t.depends :: Providers(reg, c) != []
  }

  lemma PullStaysInCore(ctx: Context, seeds: set<int>, t: Target, b: int)
    requires NamesStayInCore(ctx, seeds) && ProviderClosed(ctx.reg, Core(ctx, seeds))
    requires t in ctx.reg && t.id in Core(ctx, seeds) && Pulls(ctx, {}, {}, t, b)
    ensures b in Core(ctx, seeds)
  {
    hide Core, Implicit, Providers;
    var c :| c in t.depends && b in Sources(ctx, c);
    if Providers(ctx.reg, c) != [] {
      var p :| p in Providers(ctx.reg, c) && p.id == b;
    }
  }

  /** The fallback adds nothing exactly when its names are in the core anyway. */
  lemma FullIsCoreIff(ctx: Context, seeds: set<int>)
    requires seeds <= Ids(ctx.reg)
    ensures Full(ctx, seeds) == Core(ctx, seeds) <==> NamesStayInCore(ctx, seeds)
  {
    hide Core, Full, Pulls, ProviderClosed;
    CoreClosed(ctx, seeds);
    CoreInFull(ctx, seeds);
    if NamesStayInCore(ctx, seeds) {
      forall t, b | t in ctx.reg && t.id in Core(ctx, seeds) && Pulls(ctx, {}, {}, t, b) ensures b in Core(ctx, seeds) {
        PullStaysInCore(ctx, seeds, t, b);
      }
      FullLeast(ctx, seeds, Core(ctx, seeds));
    }
    if Full(ctx, seeds) == Core(ctx, seeds) {
      forall t, c | t in ctx.reg && t.id in Core(ctx, seeds) && c in t.depends && Providers(ctx.reg, c) == []
        ensures Implicit(ctx, c).Some? ==> Implicit(ctx, c).value in Core(ctx, seeds)
      {
        if Implicit(ctx, c).Some? {
          ImplicitIsPulled(ctx, t, c);
          FullPulls(ctx, seeds, t, Implicit(ctx, c).value);
        }
      }
    }
  }

  lemma ImplicitIsPulled(ctx: Context, t: Target, c: int)
    requires c in t.depends && Providers(ctx.reg, c) == [] && Implicit(ctx, c).Some?
    ensures Pulls(ctx, {}, {}, t, Implicit(ctx, c).value)
  {
    var p := Implicit(ctx, c).value;
    assert p in Sources(ctx, c);
  }

  /** Include-all fails exactly when strict mode misses a provider in the core. */
  lemma SelectAllIff(ctx: Context, seeds: set<int>)
    requires Distinct(ctx.reg) && seeds <= Ids(ctx.reg)
    ensures SelectAll(ctx, seeds) == if ctx.strict && !AllProvided(ctx.reg, Core(ctx, seeds)) then None
                                     else Some(Core(ctx, seeds))
  {
    hide ClosureSet, ClosureFails, Implicit;
    NothingMissingIff(All(ctx), seeds);
    assert NothingMissing(All(ctx), Core(ctx, seeds)) <==> (ctx.strict ==> AllProvided(ctx.reg, Core(ctx, seeds))) by {
      NoCapsMissing(ctx);
    }
  }

  lemma NoCapsMissing(ctx: Context)
    ensures forall c :: Missing(All(ctx), c) <==> ctx.strict && Providers(ctx.reg, c) == []
  {
  }

  ghost predicate NothingMissing(ctx: Context, ids: set<int>) {
    forall t, c | t in ctx.reg && t.id in ids && c in t.depends :: !Missing(ctx, c)
  }

  /** A closure from registered seeds fails exactly when a member needs something
      missing. */
  lemma NothingMissingIff(ctx: Context, seeds: set<int>)
    requires Distinct(ctx.reg) && seeds <= Ids(ctx.reg)
    ensures ClosureFails(ctx, seeds, {}, {}) <==> !NothingMissing(ctx, Full(ctx, seeds))
  {
    hide Missing;
    forall x | Pulled(ctx, seeds, {}, {}, x) ensures x in Full(ctx, seeds) {
      PulledRegistered(ctx, seeds, x);
    }
    forall t | t in ctx.reg ensures Bad(ctx, {}, t.id) <==> Blocked(ctx, {}, t) {
      forall u | u in ctx.reg && u.id == t.id ensures u == t {
        DistinctIds(ctx.reg, t, u);
      }
    }
    hide Bad, Pulled;
    if !NothingMissing(ctx, Full(ctx, seeds)) {
      var t, c :| t in ctx.reg && t.id in Full(ctx, seeds) && c in t.depends && Missing(ctx, c);
      assert Blocked(ctx, {}, t);
      assert Bad(ctx, {}, t.id) && Pulled(ctx, seeds, {}, {}, t.id);
    }
    if ClosureFails(ctx, seeds, {}, {}) {
      var x :| Pulled(ctx, seeds, {}, {}, x) && Bad(ctx, {}, x);
      var t :| t in ctx.reg && t.id == x;
      assert Blocked(ctx, {}, t);
    }
  }

  lemma PulledRegistered(ctx: Context, seeds: set<int>, x: int)
    requires seeds <= Ids(ctx.reg) && Pulled(ctx, seeds, {}, {}, x)
    ensures x in Ids(ctx.reg)
  {
    hide Pulls;
    var edges := PullEdges(ctx, {}, {});
    var s :| s in seeds && Reaches(edges, s, x);
    ClosedHolds(edges, Ids(ctx.reg), s, x);
  }

  /** In strict mode, where the closure with the name fallback succeeds, the one
      without it does exactly when every needed capability has a provider. */
  lemma FastPathSucceedsIff(ctx: Context, seeds: set<int>)
    requires ctx.strict && Distinct(ctx.reg) && seeds <= Ids(ctx.reg) && !ClosureFails(ctx, seeds, {}, {})
    ensures SelectAll(ctx, seeds).Some? <==> AllProvided(ctx.reg, Full(ctx, seeds))
  {
    hide Core, Full, SelectAll, ClosureFails, Implicit;
    SelectAllIff(ctx, seeds);
    CoreInFull(ctx, seeds);
    FullIsCoreIff(ctx, seeds);
  }

  // The narrowing loop where nothing needed is contested

  /** Contests over own names, which the fast path does not hold, are won inside,
      whichever of the targets are selected when the contest is held. */
  ghost predicate OwnNamesStay(ctx: Context, ids: set<int>)
    requires ctx.caps.Some?
  {
    forall t, c, r: set<int> | t in ctx.reg && t.id in r && r <= ids && c in SelfDue(ctx, {}, t) ::
      WonInside(ctx, c, r, ids)
  }

  ghost predicate WonInside(ctx: Context, c: int, r: set<int>, ids: set<int>) {
    var d := Decide(ctx, c, Offered(ctx.reg, r));
    d.Take? && d.id in ids
  }

  /** Where the closure succeeds without anything contested in it. */
  ghost predicate Plain(ctx: Context, seeds: set<int>)
    requires ctx.caps.Some?
  {
    && !ClosureFails(ctx, seeds, {}, {})
    && !NeedsContested(ctx.reg, Full(ctx, seeds))
    && OwnNamesStay(ctx, Full(ctx, seeds))
  }

  lemma UncontestedDecision(ctx: Context, t: Target, c: int, fp: set<int>)
    requires c in t.depends && !Contested(ctx.reg, c) && !Missing(ctx, c)
    ensures var d := Decide(ctx, c, fp);
            !d.Fail? && (d.Take? ==> d.id in Ids(ctx.reg) && Pulls(ctx, {}, {}, t, d.id))
  {
    var d := Decide(ctx, c, fp);
    if d.Take? {
      assert Providers(ctx.reg, c) != [] ==> Providers(ctx.reg, c)[0] in Providers(ctx.reg, c);
      var p := d.id;
      assert p in Sources(ctx, c);
    }
  }

  lemma DueStaysInside(ctx: Context, seeds: set<int>, s: Selection, fp: set<int>, t: Target, c: int)
    requires ctx.caps.Some? && Distinct(ctx.reg) && seeds <= Ids(ctx.reg) && Plain(ctx, seeds)
    requires t in ctx.reg && t.id in s.resolved && s.resolved <= Full(ctx, seeds)
    requires fp == Offered(ctx.reg, s.resolved)
    requires c in DueFrom(ctx, s, fp, t)
    ensures !Decide(ctx, c, fp).Fail?
    ensures Decide(ctx, c, fp).Take? ==> Decide(ctx, c, fp).id in Full(ctx, seeds)
  {
    hide Decide, Full, Pulls, Missing, CapIndex, ClosureFails, Offered;
    if c in t.depends {
      assert !Contested(ctx.reg, c);
      NothingMissingIff(ctx, seeds);
      hide Contested;
      UncontestedDecision(ctx, t, c, fp);
      if Decide(ctx, c, fp).Take? {
        FullPulls(ctx, seeds, t, Decide(ctx, c, fp).id);
      }
    } else {
      assert c in SelfDue(ctx, {}, t);
      assert WonInside(ctx, c, s.resolved, Full(ctx, seeds));
    }
  }

  lemma PassStaysInside(ctx: Context, seeds: set<int>, s: Selection)
    requires ctx.caps.Some? && Distinct(ctx.reg) && seeds <= Ids(ctx.reg) && Plain(ctx, seeds)
    requires s.resolved <= Full(ctx, seeds)
    ensures !PassFails(ctx, s) && Pass(ctx, s).resolved <= Full(ctx, seeds)
  {
    hide Full, Plain, Decide, DueFrom, Offered;
    var fp := Offered(ctx.reg, s.resolved);
    forall c | c in Due(ctx, s)
      ensures !Decide(ctx, c, fp).Fail?
      ensures Decide(ctx, c, fp).Take? ==> Decide(ctx, c, fp).id in Full(ctx, seeds)
    {
      var t :| t in ctx.reg && t.id in s.resolved && c in DueFrom(ctx, s, fp, t);
      DueStaysInside(ctx, seeds, s, fp, t, c);
    }
  }

  lemma {:induction false} SettlesInside(ctx: Context, seeds: set<int>, s: Selection)
    requires ctx.caps.Some? && Distinct(ctx.reg) && seeds <= Ids(ctx.reg) && Plain(ctx, seeds)
    requires s.resolved <= Full(ctx, seeds) && s.resolved <= Ids(ctx.reg)
    ensures Settle(ctx, s).Some? && Settle(ctx, s).value.resolved <= Full(ctx, seeds)
    decreases |Ids(ctx.reg) - s.resolved|
  {
    hide Pass, PassFails, Full, Plain;
    PassStaysInside(ctx, seeds, s);
    PassStaysRegistered(ctx, s);
    if Pass(ctx, s).resolved != s.resolved {
      GrowthShrinksRest(Ids(ctx.reg), s.resolved, Pass(ctx, s).resolved);
      SettlesInside(ctx, seeds, Pass(ctx, s));
    }
  }

  /** With one source at most, what supplies a capability is all that it pulls in. */
  lemma SuppliedPulls(ctx: Context, ids: set<int>, c: int, p: int)
    requires Supplied(ctx, ids, c) && !Contested(ctx.reg, c) && p in Sources(ctx, c)
    ensures p in ids
  {
    if c in Offered(ctx.reg, ids) {
      var q :| q in ctx.reg && q.id in ids && c in q.offers;
      assert q in Providers(ctx.reg, c);
    }
  }

  /** The loop selects the whole closure. */
  lemma NarrowedIsFull(ctx: Context, seeds: set<int>)
    requires ctx.caps.Some? && Distinct(ctx.reg) && seeds <= Ids(ctx.reg) && Plain(ctx, seeds)
    ensures SelectNarrowed(ctx, seeds) == Some(Full(ctx, seeds))
  {
    hide Full, SelfSufficient, SelectNarrowed, Settle, ClosureFails, Sources, Supplied, Contested, OwnNamesStay;
    var s0 := Selection(seeds, {}, {});
    SeedsInside(ctx, seeds);
    SettlesInside(ctx, seeds, s0);
    SettledRegistered(ctx, s0);
    SelectNarrowedIsSettled(ctx, seeds);
    var ids := Settle(ctx, s0).value.resolved;
    forall t, p | t in ctx.reg && t.id in ids && Pulls(ctx, {}, {}, t, p) ensures p in ids {
      var c :| c in t.depends && p in Sources(ctx, c);
      NeedIsSupplied(ctx, ids, t, c);
      SuppliedPulls(ctx, ids, c, p);
    }
    FullLeast(ctx, seeds, ids);
    assert ids == Full(ctx, seeds);
  }

  lemma NeedIsSupplied(ctx: Context, ids: set<int>, t: Target, c: int)
    requires SelfSufficient(ctx, ids) && t in ctx.reg && t.id in ids && c in t.depends
    ensures Supplied(ctx, ids, c)
  {
  }

  /** The name fallback, which the fast path drops, makes no difference: its names
      are in the core anyway, and strict mode has no use for it. */
  ghost predicate FallbackIdle(ctx: Context, seeds: set<int>) {
    NamesStayInCore(ctx, seeds) && (ctx.strict ==> AllProvided(ctx.reg, Core(ctx, seeds)))
  }

  /** The fast path and the loop it stands for select the same targets if and only if
      the name fallback makes no difference. */
  lemma FastPathAgreesIff(ctx: Context, seeds: set<int>)
    requires ctx.caps.Some? && Distinct(ctx.reg) && seeds <= Ids(ctx.reg) && Plain(ctx, seeds)
    ensures SelectOne(ctx, seeds, false) == SelectAll(ctx, seeds)
    ensures SelectOne(ctx, seeds, false) == SelectNarrowed(ctx, seeds) <==> FallbackIdle(ctx, seeds)
  {
    hide Core, NamesStayInCore, AllProvided, SelectNarrowed, SelectAll, ClosureFails, NeedsContested, OwnNamesStay;
    NarrowedIsFull(ctx, seeds);
    SelectAllIff(ctx, seeds);
    FullIsCoreIff(ctx, seeds);
  }

  /** Whatever contests the loop holds, agreement on a selection needs the fallback
      to be idle. */
  lemma AgreementIsIdle(ctx: Context, seeds: set<int>)
    requires ctx.caps.Some? && Distinct(ctx.reg) && seeds <= Ids(ctx.reg)
    requires SelectAll(ctx, seeds).Some? && SelectAll(ctx, seeds) == SelectNarrowed(ctx, seeds)
    ensures FallbackIdle(ctx, seeds)
  {
    hide Core, SelectNarrowed, SelectAll, Settle, Supplied, SelfSufficient, Implicit, Providers;
    SelectAllIff(ctx, seeds);
    SelectNarrowedIsSettled(ctx, seeds);
    var core := Core(ctx, seeds);
    forall t, c | t in ctx.reg && t.id in core && c in t.depends && Providers(ctx.reg, c) == []
      ensures Implicit(ctx, c).Some? ==> Implicit(ctx, c).value in core
    {
      NeedIsSupplied(ctx, core, t, c);
      SuppliedByName(ctx, core, c);
    }
  }

  lemma SuppliedByName(ctx: Context, ids: set<int>, c: int)
    requires Supplied(ctx, ids, c) && Providers(ctx.reg, c) == []
    ensures Implicit(ctx, c).Some? ==> Implicit(ctx, c).value in ids
  {
  }

  // One provider for everything needed

  ghost predicate Unambiguous(ctx: Context, seeds: set<int>)
    requires ctx.caps.Some?
  {
    && (forall t, c | t in ctx.reg && t.id in Core(ctx, seeds) && c in t.depends :: |Providers(ctx.reg, c)| == 1)
    && OwnNamesStay(ctx, Core(ctx, seeds))
  }

  lemma UnambiguousIsPlain(ctx: Context, seeds: set<int>)
    requires ctx.caps.Some? && Distinct(ctx.reg) && seeds <= Ids(ctx.reg) && Unambiguous(ctx, seeds)
    ensures Plain(ctx, seeds) && FallbackIdle(ctx, seeds) && Full(ctx, seeds) == Core(ctx, seeds)
  {
    hide Core, Full, OwnNamesStay, ClosureFails, Implicit;
    FullIsCoreIff(ctx, seeds);
    NothingMissingIff(ctx, seeds);
  }

  /** Include-all, the fast path and the narrowing loop select the same targets, the
      least set that holds the seeds and is closed under providers; so their plans
      are the same. */
  lemma PoliciesAgree(ctx: Context, seeds: set<int>, abstractSeed: bool, plans: (Planned, Planned, Planned))
    requires ctx.caps.Some? && Distinct(ctx.reg) && seeds <= Ids(ctx.reg) && Unambiguous(ctx, seeds)
    requires PlanFor(ctx.reg, SelectAll(ctx, seeds), plans.0) && PlanFor(ctx.reg, SelectNarrowed(ctx, seeds), plans.1)
    requires PlanFor(ctx.reg, SelectOne(ctx, seeds, abstractSeed), plans.2)
    ensures SelectAll(ctx, seeds) == SelectNarrowed(ctx, seeds) == SelectOne(ctx, seeds, abstractSeed)
    ensures SelectAll(ctx, seeds) == Some(Core(ctx, seeds))
    ensures seeds <= Core(ctx, seeds) && ProviderClosed(ctx.reg, Core(ctx, seeds))
    ensures forall other :: seeds <= other && ProviderClosed(ctx.reg, other) ==> Core(ctx, seeds) <= other
    ensures plans.0 == plans.1 == plans.2
  {
    hide Core, Full, FallbackIdle, Unambiguous, ProviderClosed, SelectAll, SelectNarrowed, PlanFor, OwnNamesStay;
    UnambiguousIsPlain(ctx, seeds);
    NarrowedIsFull(ctx, seeds);
    FastPathAgreesIff(ctx, seeds);
    CoreClosed(ctx, seeds);
    forall other | seeds <= other && ProviderClosed(ctx.reg, other) ensures Core(ctx, seeds) <= other {
      CoreLeast(ctx, seeds, other);
    }
    PlanUnique(ctx.reg, SelectAll(ctx, seeds), plans.0, plans.1);
    PlanUnique(ctx.reg, SelectAll(ctx, seeds), plans.0, plans.2);
  }
}
