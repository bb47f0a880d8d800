/** src/dag/src/resolver.rs, `resolve`: requests by name, and what a plan guarantees
    in the fields of the targets. */
module Requests {
  import opened Sequences
  import opened Reachability
  import opened TopologicalOrders
  import opened Targets
  import opened Narrowing
  import opened Closures
  import opened Selections
  import opened Resolver
  import PolicyAgreement

  datatype Policy = All | NarrowOne

  datatype Resolution =
    | Plan(order: seq<int>, names: seq<string>)
    | TargetNotFound(name: string)
    | NoCapabilityRegistry
    | Unresolvable              // something is missing or ambiguous
    | CircularDependency

  ghost predicate AllKnown(reg: seq<Target>, names: seq<string>) {
    forall i :: 0 <= i < |names| ==> ByName(reg, names[i]).Some?
  }

  function SeedIds(reg: seq<Target>, names: seq<string>): set<int> {
    set i | 0 <= i < |names| && ByName(reg, names[i]).Some? :: ByName(reg, names[i]).value.id
  }

  ghost predicate AbstractSeed(reg: seq<Target>, names: seq<string>) {
    exists i :: 0 <= i < |names| && ByName(reg, names[i]).Some? && ByName(reg, names[i]).value.kind.Abstract?
  }

  ghost function Selected(ctx: Context, policy: Policy, names: seq<string>): Option<set<int>>
    requires policy.NarrowOne? ==> ctx.caps.Some?
  {
    if policy.All? then SelectAll(ctx, SeedIds(ctx.reg, names))
    else
      SeedsRegistered(ctx.reg, names);
      SelectOne(ctx, SeedIds(ctx.reg, names), AbstractSeed(ctx.reg, names))
  }

  lemma SeedsRegistered(reg: seq<Target>, names: seq<string>)
    ensures SeedIds(reg, names) <= Ids(reg)
  {
  }

  ghost predicate NamesOf(reg: seq<Target>, order: seq<int>, names: seq<string>) {
    && |names| == |order|
    && forall i :: 0 <= i < |order| ==> ById(reg, order[i]).Some? && names[i] == ById(reg, order[i]).value.name
  }

  ghost function PlannedOf(r: Resolution): Planned
    requires r.Plan? || r.CircularDependency? || r.Unresolvable?
  {
    if r.Plan? then Ordered(r.order) else if r.CircularDependency? then Circular else Unselected
  }

  /** `name` is the first of `names` that is not registered. */
  ghost predicate FirstUnknown(reg: seq<Target>, names: seq<string>, name: string) {
    exists i :: 0 <= i < |names| && names[i] == name && ByName(reg, names[i]).None? &&
                forall j :: 0 <= j < i ==> ByName(reg, names[j]).Some?
  }

  /** The lookups of `resolve`: the seed ids, or the first unknown name. */
  method LookUp(reg: seq<Target>, names: seq<string>) returns (seeds: seq<int>, abstractSeed: bool,
                unknown: Option<string>)
    ensures unknown.None? <==> AllKnown(reg, names)
    ensures unknown.None? ==> Elems(seeds) == SeedIds(reg, names) && (abstractSeed <==> AbstractSeed(reg, names))
    ensures unknown.None? ==> |seeds| == |names|
    ensures unknown.None? ==> forall i :: 0 <= i < |names| ==>
              ByName(reg, names[i]).Some? && seeds[i] == ByName(reg, names[i]).value.id
    ensures unknown.Some? ==> FirstUnknown(reg, names, unknown.value)
  {
    hide ByName;
    seeds, abstractSeed := [], false;
    for i := 0 to |names|
      invariant forall j :: 0 <= j < i ==> ByName(reg, names[j]).Some?
      invariant |seeds| == i && forall j :: 0 <= j < i ==> seeds[j] == ByName(reg, names[j]).value.id
      invariant abstractSeed <==> exists j :: 0 <= j < i && ByName(reg, names[j]).value.kind.Abstract?
    {
      var t := ByName(reg, names[i]);
      if t.None? {
        return seeds, abstractSeed, Some(names[i]);
      }
      seeds := seeds + [t.value.id];
      abstractSeed := abstractSeed || t.value.kind.Abstract?;
    }
    assert Elems(seeds) == SeedIds(reg, names) by {
      forall x | x in Elems(seeds) ensures x in SeedIds(reg, names) {
        var j :| 0 <= j < |seeds| && seeds[j] == x;
      }
    }
    return seeds, abstractSeed, None;
  }

  method NameAll(reg: seq<Target>, order: seq<int>) returns (names: seq<string>)
    requires Elems(order) <= Ids(reg)
    ensures NamesOf(reg, order, names)
  {
    hide ById;
    names := [];
    for i := 0 to |order|
      invariant |names| == i
      invariant forall j :: 0 <= j < i ==> ById(reg, order[j]).Some? && names[j] == ById(reg, order[j]).value.name
    {
      assert order[i] in Elems(order);
      assert order[i] in Ids(reg);
      var t := ById(reg, order[i]);
      names := names + [t.value.name];
    }
  }

  lemma PlanMembers(reg: seq<Target>, chosen: Option<set<int>>, order: seq<int>)
    requires PlanFor(reg, chosen, Ordered(order))
    ensures chosen.Some? && Elems(order) == chosen.value
  {
  }

  lemma SelectedRegistered(ctx: Context, policy: Policy, names: seq<string>)
    requires policy.NarrowOne? ==> ctx.caps.Some?
    ensures Selected(ctx, policy, names).Some? ==> Selected(ctx, policy, names).value <= Ids(ctx.reg)
  {
    hide Settle, ClosureFails, NeedsContested, SeedIds, AbstractSeed, Pulled;
    var seeds := SeedIds(ctx.reg, names);
    SeedsRegistered(ctx.reg, names);
    if policy.NarrowOne? {
      SettledRegistered(ctx, Selection(seeds, {}, {}));
    }
  }

  // What a request may expect

  /** The target with this id was asked for by name. */
  ghost predicate Requested(reg: seq<Target>, names: seq<string>, x: int) {
    exists t :: t in reg && t.id == x && t.name in names
  }

  /** `t` asks for `c`: it needs it, or narrowing holds a contest over its name. */
  ghost predicate Asks(ctx: Context, policy: Policy, t: Target, c: int) {
    c in t.depends || (policy.NarrowOne? && ctx.caps.Some? && OwnContest(ctx, t, c))
  }

  /** `p` is brought in when `t` asks for `c`: every provider is under include-all; under
      narrowing the one that prevails by the offers of some selected targets, or, where
      nothing offers what `t` needs, the target of that name. */
  ghost predicate Answers(ctx: Context, policy: Policy, ids: set<int>, t: Target, c: int, p: Target) {
    if policy.All? then c in p.offers
    else
      || (exists r :: r <= ids && Prevails(ctx.reg, c, Offered(ctx.reg, r), p))
      || (c in t.depends && Unoffered(ctx.reg, c) && Named(ctx, c, p))
  }

  ghost predicate Brings(ctx: Context, policy: Policy, ids: set<int>, t: Target, p: Target) {
    exists c :: Asks(ctx, policy, t, c) && Answers(ctx, policy, ids, t, c, p)
  }

  ghost function BringEdges(ctx: Context, policy: Policy, ids: set<int>): set<(int, int)> {
    set t, p | t in ctx.reg && p in ctx.reg && t.id in ids && p.id in ids && Brings(ctx, policy, ids, t, p) ::
      (t.id, p.id)
  }

  /** Requested targets bring in `x`, directly or through others. */
  ghost predicate CalledFor(ctx: Context, policy: Policy, names: seq<string>, ids: set<int>, x: int) {
    exists s :: Requested(ctx.reg, names, s) && Reaches(BringEdges(ctx, policy, ids), s, x)
  }

  /** A need is met by an offer; or nothing offers it, and then strict mode insists on
      the target of that name, which include-all does not look for. */
  ghost predicate Met(ctx: Context, policy: Policy, ids: set<int>, c: int) {
    || (exists p :: p in ctx.reg && p.id in ids && c in p.offers)
    || (Unoffered(ctx.reg, c) &&
        (ctx.strict ==> policy.NarrowOne? && exists p :: p in ctx.reg && p.id in ids && Named(ctx, c, p)))
  }

  ghost predicate ProvidersIn(reg: seq<Target>, ids: set<int>) {
    forall t, c, p | t in reg && t.id in ids && c in t.depends && p in reg && c in p.offers :: p.id in ids
  }

  /** An abstract target was asked for, or one of `ids` needs what two targets offer. */
  ghost predicate Narrows(reg: seq<Target>, names: seq<string>, ids: set<int>) {
    || (exists t :: t in reg && t.name in names && t.kind.Abstract?)
    || (exists t, c :: t in reg && t.id in ids && c in t.depends && TwoOffer(reg, c))
  }

  /** Contests over own names were held, and unoffered needs go to their names. */
  ghost predicate ContestsHeld(ctx: Context, ids: set<int>)
    requires ctx.caps.Some?
  {
    && (forall t, c | t in ctx.reg && t.id in ids && OwnContest(ctx, t, c) ::
          exists p :: p in ctx.reg && p.id in ids && c in p.offers)
    && (forall t, c, p | t in ctx.reg && t.id in ids && c in t.depends && p in ctx.reg && Unoffered(ctx.reg, c) &&
                         Named(ctx, c, p) :: p.id in ids)
  }

  ghost predicate RequestedIn(reg: seq<Target>, names: seq<string>, ids: set<int>) {
    forall t | t in reg && t.name in names :: t.id in ids
  }

  ghost predicate AllCalledFor(ctx: Context, policy: Policy, names: seq<string>, ids: set<int>) {
    forall x | x in ids :: CalledFor(ctx, policy, names, ids, x)
  }

  ghost predicate AllMet(ctx: Context, policy: Policy, ids: set<int>) {
    forall t, c | t in ctx.reg && t.id in ids && c in t.depends :: Met(ctx, policy, ids, c)
  }

  /** What is selected for a request. */
  ghost predicate Fits(ctx: Context, policy: Policy, names: seq<string>, ids: set<int>) {
    && RequestedIn(ctx.reg, names, ids)
    && AllCalledFor(ctx, policy, names, ids)
    && AllMet(ctx, policy, ids)
    && (policy.All? ==> ProvidersIn(ctx.reg, ids))
    && (policy.NarrowOne? && ctx.caps.Some? && Narrows(ctx.reg, names, ids) ==> ContestsHeld(ctx, ids))
  }

  lemma RequestedMeans(reg: seq<Target>, names: seq<string>)
    requires Distinct(reg)
    ensures forall x :: x in SeedIds(reg, names) <==> Requested(reg, names, x)
    ensures forall t :: t in reg && t.name in names ==> t.id in SeedIds(reg, names)
    ensures AbstractSeed(reg, names) <==> exists t :: t in reg && t.name in names && t.kind.Abstract?
  {
    forall t | t in reg && t.name in names
      ensures exists i :: 0 <= i < |names| && ByName(reg, names[i]) == Some(t)
    {
      var i :| 0 <= i < |names| && names[i] == t.name;
      DistinctIds(reg, t, ByName(reg, names[i]).value);
      assert ByName(reg, names[i]) == Some(t);
    }
    forall i | 0 <= i < |names| && ByName(reg, names[i]).Some? ensures names[i] in names {
    }
    hide ByName;
    forall x | x in SeedIds(reg, names) ensures Requested(reg, names, x) {
      var i :| 0 <= i < |names| && ByName(reg, names[i]).Some? && ByName(reg, names[i]).value.id == x;
    }
  }

  // Include-all and the fast path

  /** What a target pulls in through providers it brings in, also under narrowing if no
      two targets offer what it needs. */
  lemma PullBrings(ctx: Context, policy: Policy, ids: set<int>, t: Target, v: int)
    requires Distinct(ctx.reg) && t in ctx.reg && t.id in ids && v in ids
    requires Pulls(ctx.(caps := None), {}, {}, t, v)
    requires policy.NarrowOne? ==> forall c :: c in t.depends ==> !Contested(ctx.reg, c)
    ensures (t.id, v) in BringEdges(ctx, policy, ids)
  {
    var c :| c in t.depends && v in Sources(ctx.(caps := None), c);
    var p :| p in Providers(ctx.reg, c) && p.id == v;
    assert Asks(ctx, policy, t, c);
    if policy.NarrowOne? {
      assert !Contested(ctx.reg, c);
      ContestedMeans(ctx.reg, c);
      assert Prevails(ctx.reg, c, Offered(ctx.reg, {}), p);
    }
    assert Answers(ctx, policy, ids, t, c, p);
    assert Brings(ctx, policy, ids, t, p);
  }

  lemma CoreCalledFor(ctx: Context, policy: Policy, names: seq<string>, ids: set<int>)
    requires Distinct(ctx.reg) && SelectAll(ctx, SeedIds(ctx.reg, names)) == Some(ids)
    requires policy.NarrowOne? ==> !NeedsContested(ctx.reg, ids)
    ensures AllCalledFor(ctx, policy, names, ids)
  {
    hide Reaches, PullEdges, BringEdges, SeedIds, ClosureSet, ClosureFails, NeedsContested, Closed, CalledFor;
    var all, seeds := ctx.(caps := None), SeedIds(ctx.reg, names);
    ClosureHolds(all, seeds, {}, {});
    forall x | x in ids ensures CalledFor(ctx, policy, names, ids, x) {
      var s := PulledFrom(all, seeds, x);
      PathIsBrought(ctx, policy, names, ids, s, x);
    }
  }

  lemma PulledFrom(ctx: Context, seeds: set<int>, x: int) returns (s: int)
    requires x in ClosureSet(ctx, seeds, {}, {})
    ensures s in seeds && Reaches(PullEdges(ctx, {}, {}), s, x)
  {
    hide PullEdges, Reaches;
    s :| s in seeds && Reaches(PullEdges(ctx, {}, {}), s, x);
  }

  lemma PathIsBrought(ctx: Context, policy: Policy, names: seq<string>, ids: set<int>, s: int, x: int)
    requires Distinct(ctx.reg) && s in SeedIds(ctx.reg, names) && s in ids
    requires Closed(PullEdges(ctx.(caps := None), {}, {}), ids) && Reaches(PullEdges(ctx.(caps := None), {}, {}), s, x)
    requires policy.NarrowOne? ==> !NeedsContested(ctx.reg, ids)
    ensures CalledFor(ctx, policy, names, ids, x)
  {
    hide Reaches, PullEdges, BringEdges, SeedIds, NeedsContested, Requested;
    var edges := PullEdges(ctx.(caps := None), {}, {});
    RequestedMeans(ctx.reg, names);
    forall u, v | (u, v) in edges && u in ids ensures (u, v) in BringEdges(ctx, policy, ids) {
      EdgeBrings(ctx, policy, ids, u, v);
    }
    ReachesInto(edges, BringEdges(ctx, policy, ids), ids, s, x);
  }

  lemma EdgeBrings(ctx: Context, policy: Policy, ids: set<int>, u: int, v: int)
    requires Distinct(ctx.reg) && (u, v) in PullEdges(ctx.(caps := None), {}, {}) && u in ids && v in ids
    requires policy.NarrowOne? ==> !NeedsContested(ctx.reg, ids)
    ensures (u, v) in BringEdges(ctx, policy, ids)
  {
    hide Pulls, BringEdges, Contested;
    var t :| t in ctx.reg && t.id == u && Pulls(ctx.(caps := None), {}, {}, t, v);
    PullBrings(ctx, policy, ids, t, v);
  }

  lemma CoreMet(ctx: Context, policy: Policy, ids: set<int>)
    requires SelfSufficient(ctx.(caps := None), ids)
    ensures AllMet(ctx, policy, ids)
  {
    hide Supplied, Met;
    forall t, c | t in ctx.reg && t.id in ids && c in t.depends ensures Met(ctx, policy, ids, c) {
      assert Supplied(ctx.(caps := None), ids, c);
      CoreIsMet(ctx, policy, ids, c);
    }
  }

  lemma ClosedProvidersIn(reg: seq<Target>, ids: set<int>)
    requires PolicyAgreement.ProviderClosed(reg, ids)
    ensures ProvidersIn(reg, ids)
  {
    forall t, c, p | t in reg && t.id in ids && c in t.depends && p in reg && c in p.offers ensures p.id in ids {
      assert p in Providers(reg, c);
    }
  }

  lemma NarrowsMeans(reg: seq<Target>, names: seq<string>, ids: set<int>)
    requires Distinct(reg)
    ensures Narrows(reg, names, ids) <==> AbstractSeed(reg, names) || NeedsContested(reg, ids)
  {
    hide AbstractSeed, NeedsContested, TwoOffer;
    RequestedMeans(reg, names);
    NeedsContestedMeans(reg, ids);
  }

  lemma SeedsIn(reg: seq<Target>, names: seq<string>, ids: set<int>)
    requires Distinct(reg) && SeedIds(reg, names) <= ids
    ensures RequestedIn(reg, names, ids)
  {
    hide SeedIds, AbstractSeed;
    RequestedMeans(reg, names);
  }

  lemma CoreIsMet(ctx: Context, policy: Policy, ids: set<int>, c: int)
    requires Supplied(ctx.(caps := None), ids, c)
    ensures Met(ctx, policy, ids, c)
  {
    UnofferedMeans(ctx.reg, c);
    if c in Offered(ctx.reg, ids) {
      var p :| p in ctx.reg && p.id in ids && c in p.offers;
    }
  }

  /** A selection of the providers alone. */
  lemma CoreFits(ctx: Context, policy: Policy, names: seq<string>, ids: set<int>)
    requires Distinct(ctx.reg) && SelectAll(ctx, SeedIds(ctx.reg, names)) == Some(ids)
    requires policy.NarrowOne? ==> !NeedsContested(ctx.reg, ids) && !AbstractSeed(ctx.reg, names)
    ensures Fits(ctx, policy, names, ids)
  {
    hide AllCalledFor, AllMet, ProvidersIn, RequestedIn, Narrows, ContestsHeld, SeedIds, AbstractSeed, NeedsContested,
         SelectAll, SelfSufficient;
    var seeds := SeedIds(ctx.reg, names);
    SeedsRegistered(ctx.reg, names);
    PolicyAgreement.SelectAllIff(ctx, seeds);
    PolicyAgreement.CoreClosed(ctx, seeds);
    SeedsIn(ctx.reg, names, ids);
    CoreCalledFor(ctx, policy, names, ids);
    AllIsSelfSufficient(ctx, seeds);
    CoreMet(ctx, policy, ids);
    ClosedProvidersIn(ctx.reg, ids);
    NarrowsMeans(ctx.reg, names, ids);
  }

  // The narrowing loop

  ghost predicate AllBrought(ctx: Context, seeds: set<int>, ids: set<int>, part: set<int>) {
    forall x | x in part :: exists s :: s in seeds && Reaches(BringEdges(ctx, NarrowOne, ids), s, x)
  }

  /** What comes due and goes to `p` is asked for by a selected target. */
  lemma DueBrings(ctx: Context, s: Selection, ids: set<int>, c: int, p: Target) returns (t: Target)
    requires ctx.caps.Some? && s.resolved <= ids && p in ctx.reg && p.id in ids
    requires ComesDue(ctx, s, c) && GoesTo(ctx, c, Offered(ctx.reg, s.resolved), p)
    ensures t in ctx.reg && t.id in s.resolved && (t.id, p.id) in BringEdges(ctx, NarrowOne, ids)
  {
    hide Prevails, Offered, CapIndex, Named;
    t :| t in ctx.reg && t.id in s.resolved &&
         ((c in t.depends && c !in Offered(ctx.reg, s.resolved)) || OwnContest(ctx, t, c));
    assert Asks(ctx, NarrowOne, t, c);
    assert Answers(ctx, NarrowOne, ids, t, c, p);
    assert Brings(ctx, NarrowOne, ids, t, p);
  }

  lemma PassBrings(ctx: Context, seeds: set<int>, s: Selection, ids: set<int>)
    requires ctx.caps.Some? && Distinct(ctx.reg) && Pass(ctx, s).resolved <= ids <= Ids(ctx.reg)
    requires AllBrought(ctx, seeds, ids, s.resolved)
    ensures AllBrought(ctx, seeds, ids, Pass(ctx, s).resolved)
  {
    PassStaysWithin(ctx, s);
    hide Pass, ComesDue, GoesTo, Reaches, BringEdges, Offered;
    var edges := BringEdges(ctx, NarrowOne, ids);
    forall x | x in Pass(ctx, s).resolved && x !in s.resolved ensures exists a :: a in seeds && Reaches(edges, a, x) {
      assert x in Ids(ctx.reg);
      var p :| p in ctx.reg && p.id == x;
      var c := PassReason(ctx, s, p);
      var t := DueBrings(ctx, s, ids, c, p);
      var a :| a in seeds && Reaches(edges, a, t.id);
      ReachesStep(edges, a, t.id, x);
    }
  }

  lemma PassStaysWithin(ctx: Context, s: Selection)
    requires ctx.caps.Some?
    ensures s.resolved <= Pass(ctx, s).resolved
  {
  }

  lemma PassReason(ctx: Context, s: Selection, p: Target) returns (c: int)
    requires ctx.caps.Some? && Distinct(ctx.reg) && p in ctx.reg
    requires p.id in Pass(ctx, s).resolved && p.id !in s.resolved
    ensures ComesDue(ctx, s, c) && GoesTo(ctx, c, Offered(ctx.reg, s.resolved), p)
  {
    hide Pass, ComesDue, GoesTo, Offered, PassFails;
    PassMeans(ctx, s);
    c :| ComesDue(ctx, s, c) && GoesTo(ctx, c, Offered(ctx.reg, s.resolved), p);
  }

  lemma {:induction false} SettleBrings(ctx: Context, seeds: set<int>, s: Selection, ids: set<int>)
    requires ctx.caps.Some? && Distinct(ctx.reg) && s.resolved <= Ids(ctx.reg)
    requires Settle(ctx, s).Some? && Settle(ctx, s).value.resolved == ids && AllBrought(ctx, seeds, ids, s.resolved)
    ensures AllBrought(ctx, seeds, ids, ids)
    decreases |Ids(ctx.reg) - s.resolved|
  {
    hide Pass, PassFails, AllBrought;
    PassStaysRegistered(ctx, s);
    var s' := Pass(ctx, s);
    if s'.resolved != s.resolved {
      GrowthShrinksRest(Ids(ctx.reg), s.resolved, s'.resolved);
      SettledRegistered(ctx, s');
      PassBrings(ctx, seeds, s, ids);
      SettleBrings(ctx, seeds, s', ids);
    }
  }

  /** Every contest over an own name that is due at the end has been held. */
  lemma StableHoldsOwn(ctx: Context, s: Selection, t: Target, c: int)
    requires ctx.caps.Some? && Distinct(ctx.reg) && !PassFails(ctx, s) && s.narrowed <= Offered(ctx.reg, s.resolved)
    requires Pass(ctx, s).resolved == s.resolved && t in ctx.reg && t.id in s.resolved && OwnContest(ctx, t, c)
    ensures c in Offered(ctx.reg, s.resolved)
  {
    hide Decide, Offered, CapIndex, TwoOffer;
    PassOffersNarrowed(ctx, s);
    if c !in s.narrowed {
      assert ComesDue(ctx, s, c);
      DueMeans(ctx, s, c);
      ContestedMeans(ctx.reg, c);
      assert c in Pass(ctx, s).narrowed;
    }
  }

  lemma {:induction false} SettledHoldsOwn(ctx: Context, s: Selection, t: Target, c: int)
    requires ctx.caps.Some? && Distinct(ctx.reg) && s.resolved <= Ids(ctx.reg)
    requires s.narrowed <= Offered(ctx.reg, s.resolved) && Settle(ctx, s).Some?
    requires t in ctx.reg && t.id in Settle(ctx, s).value.resolved && OwnContest(ctx, t, c)
    ensures c in Offered(ctx.reg, Settle(ctx, s).value.resolved)
    decreases |Ids(ctx.reg) - s.resolved|
  {
    hide Pass, PassFails, Offered, OwnContest;
    PassStaysRegistered(ctx, s);
    PassOffersNarrowed(ctx, s);
    if Pass(ctx, s).resolved == s.resolved {
      StableHoldsOwn(ctx, s, t, c);
    } else {
      GrowthShrinksRest(Ids(ctx.reg), s.resolved, Pass(ctx, s).resolved);
      SettledHoldsOwn(ctx, Pass(ctx, s), t, c);
    }
  }

  lemma LoopIsMet(ctx: Context, ids: set<int>, c: int)
    requires Distinct(ctx.reg) && Supplied(ctx, ids, c)
    ensures Met(ctx, NarrowOne, ids, c)
    ensures forall p :: p in ctx.reg && Unoffered(ctx.reg, c) && Named(ctx, c, p) ==> p.id in ids
  {
    UnofferedMeans(ctx.reg, c);
    if c in Offered(ctx.reg, ids) {
      var p :| p in ctx.reg && p.id in ids && c in p.offers;
    } else {
      NamedDecision(ctx, c, {});
      hide Named;
      if Implicit(ctx, c).Some? {
        var p :| p in ctx.reg && p.id == Implicit(ctx, c).value;
        assert Named(ctx, c, p);
      }
    }
  }

  lemma LoopMet(ctx: Context, ids: set<int>)
    requires Distinct(ctx.reg) && SelfSufficient(ctx, ids)
    ensures AllMet(ctx, NarrowOne, ids)
    ensures forall t, c, p | t in ctx.reg && t.id in ids && c in t.depends && p in ctx.reg && Unoffered(ctx.reg, c) &&
                             Named(ctx, c, p) :: p.id in ids
  {
    hide Supplied, Met, Unoffered, Named;
    forall t, c | t in ctx.reg && t.id in ids && c in t.depends
      ensures Met(ctx, NarrowOne, ids, c)
      ensures forall p :: p in ctx.reg && Unoffered(ctx.reg, c) && Named(ctx, c, p) ==> p.id in ids
    {
      assert Supplied(ctx, ids, c);
      LoopIsMet(ctx, ids, c);
    }
  }

  lemma LoopHolds(ctx: Context, seeds: set<int>, ids: set<int>)
    requires ctx.caps.Some? && Distinct(ctx.reg) && seeds <= Ids(ctx.reg) && SelfSufficient(ctx, ids)
    requires var settled := Settle(ctx, Selection(seeds, {}, {})); settled.Some? && settled.value.resolved == ids
    ensures ContestsHeld(ctx, ids)
  {
    hide Settle, OwnContest, SelfSufficient, Unoffered, Named, AllMet;
    LoopMet(ctx, ids);
    forall t, c | t in ctx.reg && t.id in ids && OwnContest(ctx, t, c)
      ensures exists p :: p in ctx.reg && p.id in ids && c in p.offers
    {
      SettledHoldsOwn(ctx, Selection(seeds, {}, {}), t, c);
    }
  }

  lemma BroughtIsCalledFor(ctx: Context, names: seq<string>, ids: set<int>)
    requires Distinct(ctx.reg) && AllBrought(ctx, SeedIds(ctx.reg, names), ids, ids)
    ensures AllCalledFor(ctx, NarrowOne, names, ids)
  {
    hide SeedIds, Reaches, BringEdges, Requested, AbstractSeed;
    RequestedMeans(ctx.reg, names);
    forall x | x in ids ensures CalledFor(ctx, NarrowOne, names, ids, x) {
      var s :| s in SeedIds(ctx.reg, names) && Reaches(BringEdges(ctx, NarrowOne, ids), s, x);
    }
  }

  lemma LoopFits(ctx: Context, names: seq<string>, ids: set<int>)
    requires ctx.caps.Some? && Distinct(ctx.reg) && SeedIds(ctx.reg, names) <= Ids(ctx.reg)
    requires SelectNarrowed(ctx, SeedIds(ctx.reg, names)) == Some(ids)
    ensures Fits(ctx, NarrowOne, names, ids) && ContestsHeld(ctx, ids)
  {
    hide AllCalledFor, AllMet, RequestedIn, Narrows, ContestsHeld, SelectNarrowed, Settle, SeedIds, AllBrought,
         SelfSufficient;
    var seeds := SeedIds(ctx.reg, names);
    SelectNarrowedIsSettled(ctx, seeds);
    SettledRegistered(ctx, Selection(seeds, {}, {}));
    SeedsIn(ctx.reg, names, ids);
    LoopBrings(ctx, seeds, ids);
    BroughtIsCalledFor(ctx, names, ids);
    LoopMet(ctx, ids);
    LoopHolds(ctx, seeds, ids);
  }

  lemma LoopBrings(ctx: Context, seeds: set<int>, ids: set<int>)
    requires ctx.caps.Some? && Distinct(ctx.reg) && seeds <= Ids(ctx.reg)
    requires var settled := Settle(ctx, Selection(seeds, {}, {})); settled.Some? && settled.value.resolved == ids
    ensures AllBrought(ctx, seeds, ids, ids)
  {
    hide Settle;
    forall x | x in seeds ensures Reaches(BringEdges(ctx, NarrowOne, ids), x, x) {
      ReachesSelf(BringEdges(ctx, NarrowOne, ids), x);
    }
    SettleBrings(ctx, seeds, Selection(seeds, {}, {}), ids);
  }

  /** Whatever is selected for a request fits it. */
  lemma SelectedFits(ctx: Context, policy: Policy, names: seq<string>)
    requires Distinct(ctx.reg) && (policy.NarrowOne? ==> ctx.caps.Some?) && Selected(ctx, policy, names).Some?
    ensures Fits(ctx, policy, names, Selected(ctx, policy, names).value)
  {
    hide Fits, SelectNarrowed, SelectAll, ClosureFails, ClosureSet, SeedIds, AbstractSeed, ContestsHeld;
    var seeds, ids := SeedIds(ctx.reg, names), Selected(ctx, policy, names).value;
    SeedsRegistered(ctx.reg, names);
    if policy.All? {
      CoreFits(ctx, policy, names, ids);
    } else if SelectOne(ctx, seeds, AbstractSeed(ctx.reg, names)) == SelectNarrowed(ctx, seeds) {
      LoopFits(ctx, names, ids);
    } else {
      PolicyAgreement.SelectAllIff(ctx, seeds);
      PolicyAgreement.CoreInFull(ctx, seeds);
      CoreFits(ctx, policy, names, ids);
    }
  }

  // What a failure means

  /** Several targets offer `c`, and none prevails by the offers of `r`. */
  ghost predicate Tied(reg: seq<Target>, c: int, r: set<int>) {
    TwoOffer(reg, c) && forall p | p in reg :: !Prevails(reg, c, Offered(reg, r), p)
  }

  /** A registered target asks for something that strict mode finds no offer of, or that
      several targets tie for. */
  ghost predicate HasGap(ctx: Context, policy: Policy) {
    exists t, c :: t in ctx.reg && Asks(ctx, policy, t, c) &&
      ((ctx.strict && Unoffered(ctx.reg, c)) || exists r :: r <= Ids(ctx.reg) && Tied(ctx.reg, c, r))
  }

  /** Whatever holds the requested targets and every provider of its needs has a need
      that nothing offers. */
  ghost predicate AlwaysLacks(reg: seq<Target>, names: seq<string>) {
    forall s | RequestedIn(reg, names, s) && ProvidersIn(reg, s) ::
      exists t, c :: t in reg && t.id in s && c in t.depends && Unoffered(reg, c)
  }

  lemma ProvidersInMeans(reg: seq<Target>, ids: set<int>)
    ensures ProvidersIn(reg, ids) <==> PolicyAgreement.ProviderClosed(reg, ids)
  {
    hide Providers;
    if ProvidersIn(reg, ids) {
      forall t, c, p | t in reg && t.id in ids && c in t.depends && p in Providers(reg, c) ensures p.id in ids {
        assert p in reg && c in p.offers;
      }
    }
    if PolicyAgreement.ProviderClosed(reg, ids) {
      ClosedProvidersIn(reg, ids);
    }
  }

  /** Include-all fails exactly in strict mode where something is always lacking. */
  lemma AllFailsIff(ctx: Context, names: seq<string>)
    requires Distinct(ctx.reg)
    ensures SelectAll(ctx, SeedIds(ctx.reg, names)).None? <==> ctx.strict && AlwaysLacks(ctx.reg, names)
  {
    hide SelectAll, SeedIds, ProvidersIn, RequestedIn, Unoffered, AbstractSeed;
    var seeds := SeedIds(ctx.reg, names);
    var core := PolicyAgreement.Core(ctx, seeds);
    SeedsRegistered(ctx.reg, names);
    PolicyAgreement.SelectAllIff(ctx, seeds);
    PolicyAgreement.CoreClosed(ctx, seeds);
    ProvidersInMeans(ctx.reg, core);
    SeedsIn(ctx.reg, names, core);
    hide PolicyAgreement.Core, PolicyAgreement.ProviderClosed;
    forall c ensures Providers(ctx.reg, c) == [] <==> Unoffered(ctx.reg, c) {
      UnofferedMeans(ctx.reg, c);
    }
    forall s | RequestedIn(ctx.reg, names, s) && ProvidersIn(ctx.reg, s) ensures core <= s {
      ProvidersInMeans(ctx.reg, s);
      RequestedSeeds(ctx.reg, names, s);
      PolicyAgreement.CoreLeast(ctx, seeds, s);
    }
  }

  lemma RequestedSeeds(reg: seq<Target>, names: seq<string>, ids: set<int>)
    requires Distinct(reg) && RequestedIn(reg, names, ids)
    ensures SeedIds(reg, names) <= ids
  {
    hide SeedIds, AbstractSeed;
    RequestedMeans(reg, names);
    forall x | x in SeedIds(reg, names) ensures x in ids {
      assert Requested(reg, names, x);
      var t :| t in reg && t.id == x && t.name in names;
    }
  }

  lemma GapFrom(ctx: Context, policy: Policy, t: Target, c: int)
    requires t in ctx.reg && Asks(ctx, policy, t, c) && ctx.strict && Unoffered(ctx.reg, c)
    ensures HasGap(ctx, policy)
  {
    hide Asks, Unoffered, Tied;
  }

  /** A need of a member of the core that has no provider. */
  lemma CoreGap(ctx: Context, policy: Policy, seeds: set<int>)
    requires Distinct(ctx.reg) && seeds <= Ids(ctx.reg) && SelectAll(ctx, seeds).None?
    ensures HasGap(ctx, policy)
  {
    hide SelectAll, HasGap, PolicyAgreement.Core;
    PolicyAgreement.SelectAllIff(ctx, seeds);
    var core := PolicyAgreement.Core(ctx, seeds);
    var t, c :| t in ctx.reg && t.id in core && c in t.depends && Providers(ctx.reg, c) == [];
    UnofferedMeans(ctx.reg, c);
    GapFrom(ctx, policy, t, c);
  }

  lemma ClosureGap(ctx: Context, policy: Policy, seeds: set<int>)
    requires Distinct(ctx.reg) && seeds <= Ids(ctx.reg) && ClosureFails(ctx, seeds, {}, {})
    ensures HasGap(ctx, policy)
  {
    hide ClosureFails, HasGap, PolicyAgreement.Full;
    PolicyAgreement.NothingMissingIff(ctx, seeds);
    var t, c :| t in ctx.reg && t.id in PolicyAgreement.Full(ctx, seeds) && c in t.depends && Missing(ctx, c);
    UnofferedMeans(ctx.reg, c);
    GapFrom(ctx, policy, t, c);
  }

  lemma PassGap(ctx: Context, s: Selection)
    requires ctx.caps.Some? && Distinct(ctx.reg) && s.resolved <= Ids(ctx.reg) && PassFails(ctx, s)
    ensures HasGap(ctx, NarrowOne)
  {
    hide Pass, PassFails, Offered, Prevails, TwoOffer;
    PassMeans(ctx, s);
    var fp := Offered(ctx.reg, s.resolved);
    var c :| ComesDue(ctx, s, c) && (forall p | p in ctx.reg :: !GoesTo(ctx, c, fp, p)) &&
             (ctx.strict || !Unoffered(ctx.reg, c));
    var t :| t in ctx.reg && t.id in s.resolved && ((c in t.depends && c !in fp) || OwnContest(ctx, t, c));
    assert Asks(ctx, NarrowOne, t, c);
    if Unoffered(ctx.reg, c) {
      GapFrom(ctx, NarrowOne, t, c);
    } else {
      NotSole(ctx.reg, c, fp);
      assert Tied(ctx.reg, c, s.resolved);
    }
  }

  /** Where one target alone offers a capability, it prevails. */
  lemma NotSole(reg: seq<Target>, c: int, fp: set<int>)
    requires !Unoffered(reg, c) && forall p | p in reg :: !Prevails(reg, c, fp, p)
    ensures TwoOffer(reg, c)
  {
    hide NotBefore;
    var p :| p in reg && c in p.offers;
    assert !Prevails(reg, c, fp, p);
  }

  lemma {:induction false} SettleGap(ctx: Context, s: Selection)
    requires ctx.caps.Some? && Distinct(ctx.reg) && s.resolved <= Ids(ctx.reg) && Settle(ctx, s).None?
    ensures HasGap(ctx, NarrowOne)
    decreases |Ids(ctx.reg) - s.resolved|
  {
    hide Pass, PassFails, HasGap;
    if PassFails(ctx, s) {
      PassGap(ctx, s);
    } else {
      PassStaysRegistered(ctx, s);
      GrowthShrinksRest(Ids(ctx.reg), s.resolved, Pass(ctx, s).resolved);
      SettleGap(ctx, Pass(ctx, s));
    }
  }

  /** A selection that fails has a reason to. */
  lemma FailureHasGap(ctx: Context, policy: Policy, names: seq<string>)
    requires Distinct(ctx.reg) && (policy.NarrowOne? ==> ctx.caps.Some?) && Selected(ctx, policy, names).None?
    ensures HasGap(ctx, policy)
    ensures policy.All? ==> ctx.strict && AlwaysLacks(ctx.reg, names)
  {
    hide HasGap, AlwaysLacks, SelectNarrowed, SelectAll, ClosureFails, ClosureSet, SeedIds, AbstractSeed, Settle;
    var seeds := SeedIds(ctx.reg, names);
    SeedsRegistered(ctx.reg, names);
    AllFailsIff(ctx, names);
    if SelectAll(ctx, seeds).None? {
      CoreGap(ctx, policy, seeds);
    } else if ClosureFails(ctx, seeds, {}, {}) {
      ClosureGap(ctx, policy, seeds);
    } else {
      SelectNarrowedIsSettled(ctx, seeds);
      SettleGap(ctx, Selection(seeds, {}, {}));
    }
  }

  /** In strict mode every capability that a plan member needs is offered by a plan
      member, or nothing offers it and a plan member carries its name. */
  lemma StrictPlansAreComplete(ctx: Context, policy: Policy, names: seq<string>, t: Target, c: int)
    requires Distinct(ctx.reg) && ctx.strict && (policy.NarrowOne? ==> ctx.caps.Some?)
    requires Selected(ctx, policy, names).Some?
    requires t in ctx.reg && t.id in Selected(ctx, policy, names).value && c in t.depends
    ensures var chosen := Selected(ctx, policy, names).value;
            || (exists p :: p in ctx.reg && p.id in chosen && c in p.offers)
            || (&& (forall p :: p in ctx.reg ==> c !in p.offers)
                && policy.NarrowOne? && 0 <= c < |ctx.caps.value|
                && exists p :: p in ctx.reg && p.id in chosen && p.name == ctx.caps.value[c])
  {
    hide Selected, AllCalledFor, ContestsHeld, Narrows, ProvidersIn, RequestedIn;
    SelectedFits(ctx, policy, names);
    assert Met(ctx, policy, Selected(ctx, policy, names).value, c);
  }

  /** `resolve`: the first unknown name, a missing registry, a selection that fails
      and a cyclic one are told apart; otherwise the one plan of the selection. */
  method Resolve(ctx: Context, policy: Policy, names: seq<string>) returns (r: Resolution)
    requires Distinct(ctx.reg)
    ensures names == [] ==> r == Plan([], [])
    ensures names != [] ==> (r.TargetNotFound? <==> !AllKnown(ctx.reg, names))
    ensures r.TargetNotFound? ==> FirstUnknown(ctx.reg, names, r.name)
    ensures names != [] && AllKnown(ctx.reg, names) ==>
              (r.NoCapabilityRegistry? <==> policy.NarrowOne? && ctx.caps.None?)
    ensures names != [] && AllKnown(ctx.reg, names) && !r.NoCapabilityRegistry? ==>
              !r.TargetNotFound? && PlanFor(ctx.reg, Selected(ctx, policy, names), PlannedOf(r))
    ensures r.Plan? ==> NamesOf(ctx.reg, r.order, r.names)
    // In the fields of the targets: a plan holds every requested name, only what those
    // call for, and all that its members need, each after what it needs.
    ensures r.Plan? ==> forall i :: 0 <= i < |names| ==> names[i] in r.names
    ensures r.Plan? ==> |r.names| == |r.order|
    ensures r.Plan? ==> forall i :: 0 <= i < |r.order| ==> Carries(ctx.reg, r.order[i], r.names[i])
    ensures r.Plan? ==> Fits(ctx, policy, names, Elems(r.order))
    ensures r.Plan? ==> Runs(ctx.reg, Elems(r.order), r.order) && RunsLeast(ctx.reg, r.order)
    ensures r.CircularDependency? ==> exists ids :: Fits(ctx, policy, names, ids) && Stuck(ctx.reg, ids)
    ensures r.Unresolvable? ==> HasGap(ctx, policy) && (policy.All? ==> ctx.strict && AlwaysLacks(ctx.reg, names))
  {
    hide PlanFor, SelectOne, SelectAll, FirstUnknown, Fits, Runs, RunsLeast, Stuck, HasGap, AlwaysLacks, SeedIds,
         AbstractSeed, ById, Carries;
    if names == [] {
      EmptyRequest(ctx, policy);
      return Plan([], []);
    }
    var seeds, abstractSeed, unknown := LookUp(ctx.reg, names);
    if unknown.Some? {
      return TargetNotFound(unknown.value);
    }
    SeedsRegistered(ctx.reg, names);
    var planned: Planned;
    if policy.All? {
      planned := ResolveAll(ctx, seeds);
    } else {
      if ctx.caps.None? {
        return NoCapabilityRegistry;
      }
      planned := ResolveNarrowOne(ctx, seeds, abstractSeed);
    }
    hide Selected;
    ghost var chosen := Selected(ctx, policy, names);
    PlannedIfSelected(ctx.reg, chosen, planned);
    if planned.Unselected? {
      FailureHasGap(ctx, policy, names);
      return Unresolvable;
    }
    SelectedFits(ctx, policy, names);
    SelectedRegistered(ctx, policy, names);
    SelectionMeans(ctx, policy, names, chosen.value, planned);
    if planned.Circular? {
      return CircularDependency;
    }
    var targetNames := NameAll(ctx.reg, planned.order);
    NamesMean(ctx.reg, planned.order, targetNames);
    NamesPlanned(ctx, policy, names, planned.order, targetNames);
    return Plan(planned.order, targetNames);
  }

  /** Some target has this id and this name. */
  ghost predicate Carries(reg: seq<Target>, id: int, name: string) {
    exists t :: t in reg && t.id == id && t.name == name
  }

  lemma NamesMean(reg: seq<Target>, order: seq<int>, names: seq<string>)
    requires NamesOf(reg, order, names)
    ensures forall i :: 0 <= i < |order| ==> Carries(reg, order[i], names[i])
  {
    forall i | 0 <= i < |order| ensures Carries(reg, order[i], names[i]) {
      var t := ById(reg, order[i]).value;
      assert t in reg && t.id == order[i] && t.name == names[i];
    }
  }

  lemma EmptyRequest(ctx: Context, policy: Policy)
    ensures Fits(ctx, policy, [], Elems<int>([])) && Runs(ctx.reg, Elems<int>([]), []) && RunsLeast(ctx.reg, [])
  {
  }

  /** What an order of the selected targets, or the lack of one, says. */
  lemma SelectionMeans(ctx: Context, policy: Policy, names: seq<string>, ids: set<int>, r: Planned)
    requires Distinct(ctx.reg) && ids <= Ids(ctx.reg) && Fits(ctx, policy, names, ids) && PlanFor(ctx.reg, Some(ids), r)
    ensures r.Circular? ==> exists ids' :: Fits(ctx, policy, names, ids') && Stuck(ctx.reg, ids')
    ensures r.Ordered? ==> Elems(r.order) == ids && Runs(ctx.reg, ids, r.order) && RunsLeast(ctx.reg, r.order)
  {
    hide Fits, Runs, RunsLeast, Stuck, KahnOrder, LeastTopological, Acyclic, PlanEdges;
    PlanMeans(ctx.reg, ids, r);
    if r.Ordered? {
      PlanMembers(ctx.reg, Some(ids), r.order);
    }
  }

  lemma PlannedIfSelected(reg: seq<Target>, chosen: Option<set<int>>, r: Planned)
    requires PlanFor(reg, chosen, r)
    ensures r.Unselected? <==> chosen.None?
  {
  }

  lemma NamesPlanned(ctx: Context, policy: Policy, names: seq<string>, order: seq<int>, targetNames: seq<string>)
    requires Distinct(ctx.reg) && AllKnown(ctx.reg, names) && Fits(ctx, policy, names, Elems(order))
    requires NamesOf(ctx.reg, order, targetNames)
    ensures forall i :: 0 <= i < |names| ==> names[i] in targetNames
  {
    hide AllCalledFor, AllMet, ContestsHeld, ProvidersIn, Narrows;
    forall i | 0 <= i < |names| ensures names[i] in targetNames {
      var t := ByName(ctx.reg, names[i]).value;
      assert t in ctx.reg && t.name in names;
      assert t.id in Elems(order);
      var k :| 0 <= k < |order| && order[k] == t.id;
      DistinctIds(ctx.reg, t, ById(ctx.reg, order[k]).value);
      assert targetNames[k] == names[i];
    }
  }
}
