/** src/dag/src/resolver.rs, the narrowing fixpoint: which targets take part in a
    plan. `Pass` and `Settle` say what one pass and the whole loop compute, without
    any iteration order; `RunPass` and `RunFixpoint` are the loops over hash sets. */
module Selections {
  import opened Sequences
  import opened Targets
  import opened Narrowing
  import opened Closures

  /** The sets `resolved_set`, `rejected` and `narrowed_caps`. */
  datatype Selection = Selection(resolved: set<int>, rejected: set<int>, narrowed: set<int>)

  /** What the selected targets offer, as a set. */
  ghost function Offered(reg: seq<Target>, ids: set<int>): set<int> {
    set t, c | t in reg && t.id in ids && c in t.offers :: c
  }

  method ComputeFullProvides(reg: seq<Target>, ids: set<int>) returns (r: set<int>)
    requires Distinct(reg)
    ensures r == Offered(reg, ids)
    ensures forall c :: c in r <==> exists t :: t in reg && t.id in ids && c in t.offers
  {
    r := {};
    var order := Enumerate(ids);
    for i := 0 to |order|
      invariant r == Offered(reg, Elems(order[..i]))
    {
      assert order[..i + 1] == order[..i] + [order[i]];
      ElemsAppend(order[..i], order[i]);
      OfferedOneMore(reg, Elems(order[..i]), order[i]);
      var t := ById(reg, order[i]);
      if t.Some? {
        r := r + t.value.offers;
      }
    }
    assert order[..|order|] == order;
  }

  lemma OfferedOneMore(reg: seq<Target>, ids: set<int>, x: int)
    requires Distinct(reg)
    ensures Offered(reg, ids + {x}) ==
            Offered(reg, ids) + if ById(reg, x).Some? then ById(reg, x).value.offers else {}
  {
    var more := if ById(reg, x).Some? then ById(reg, x).value.offers else {};
    forall c | c in Offered(reg, ids + {x}) ensures c in Offered(reg, ids) + more {
      var t :| t in reg && t.id in ids + {x} && c in t.offers;
      if t.id == x {
        DistinctIds(reg, t, ById(reg, x).value);
      }
    }
    forall c | c in Offered(reg, ids) ensures c in Offered(reg, ids + {x}) {
      var t :| t in reg && t.id in ids && c in t.offers;
      assert t.id in ids + {x};
    }
    forall c | c in more ensures c in Offered(reg, ids + {x}) {
      var t := ById(reg, x).value;
      assert t.id in ids + {x};
    }
  }

  // Deciding one capability

  datatype Decision = Skip | Take(id: int, losers: set<int>) | Fail

  predicate Contested(reg: seq<Target>, cap: int) {
    |Providers(reg, cap)| > 1
  }

  /** `w` alone has the greatest rank. */
  ghost predicate Wins(candidates: seq<Target>, fullProvides: set<int>, w: Target) {
    && w in candidates
    && forall u | u in candidates && u != w :: RankFrom(0, u, fullProvides) < RankFrom(0, w, fullProvides)
  }

  ghost function Winner(candidates: seq<Target>, fullProvides: set<int>): (w: Option<Target>)
    ensures w.Some? ==> w.value in candidates
  {
    if exists w :: Wins(candidates, fullProvides, w) then var w :| Wins(candidates, fullProvides, w); Some(w) else None
  }

  lemma WinsIsBest(candidates: seq<Target>, fullProvides: set<int>, w: Target)
    ensures Wins(candidates, fullProvides, w) <==> Best(Elems(candidates), fullProvides) == {w}
  {
    hide RankFrom;
    var best := Best(Elems(candidates), fullProvides);
    if best == {w} {
      assert w in best;
      forall u | u in candidates && u != w ensures RankFrom(0, u, fullProvides) < RankFrom(0, w, fullProvides) {
        assert u in Elems(candidates) && u !in best;
      }
    }
    if Wins(candidates, fullProvides, w) {
      assert w in Elems(candidates);
    }
  }

  /** The winner is what narrowing leaves, when it leaves one. */
  lemma WinnerRemains(candidates: seq<Target>, fullProvides: set<int>)
    requires NoDup(candidates)
    ensures var w, n := Winner(candidates, fullProvides), Narrow(candidates, fullProvides);
            (w.None? <==> |n| != 1) && (w.Some? ==> n == [w.value])
  {
    hide Narrow, Wins, NoDup;
    var n := Narrow(candidates, fullProvides);
    if |n| == 1 {
      ContestDecided(candidates, fullProvides, n[0]);
      WinsIsBest(candidates, fullProvides, n[0]);
    }
    var w := Winner(candidates, fullProvides);
    if w.Some? {
      ContestDecided(candidates, fullProvides, w.value);
      WinsIsBest(candidates, fullProvides, w.value);
    }
  }

  /** Depends on the capability and the frozen `full_provides` only. */
  ghost function Decide(ctx: Context, cap: int, fullProvides: set<int>): (d: Decision)
    ensures d.Take? ==> d.id in Ids(ctx.reg) && d.losers <= Ids(ctx.reg)
  {
    var providers := Providers(ctx.reg, cap);
    if providers == [] then
      var implicit := Implicit(ctx, cap);
      if implicit.Some? then Take(implicit.value, {}) else if ctx.strict then Fail else Skip
    else if |providers| == 1 then
      assert providers[0] in providers;
      Take(providers[0].id, {})
    else
      var winner := Winner(providers, fullProvides);
      if winner.None? then Fail else Take(winner.value.id, Ids(providers) - {winner.value.id})
  }

  /** The winner of a contest offers the capability, and so does each sole provider. */
  lemma TakenOffers(ctx: Context, cap: int, fullProvides: set<int>)
    requires Decide(ctx, cap, fullProvides).Take? && Providers(ctx.reg, cap) != []
    ensures exists t :: t in ctx.reg && t.id == Decide(ctx, cap, fullProvides).id && cap in t.offers
  {
    hide Winner;
    var providers := Providers(ctx.reg, cap);
    if |providers| == 1 {
      assert providers[0] in providers;
    }
  }

  // What a decision means, in the fields of the targets

  ghost predicate TwoOffer(reg: seq<Target>, cap: int) {
    exists p, q :: p in reg && q in reg && p != q && cap in p.offers && cap in q.offers
  }

  lemma ContestedMeans(reg: seq<Target>, cap: int)
    requires Distinct(reg)
    ensures Contested(reg, cap) <==> TwoOffer(reg, cap)
  {
    var providers := Providers(reg, cap);
    ProvidersNoDup(reg, cap);
    if |providers| > 1 {
      assert providers[0] in providers && providers[1] in providers && providers[0] != providers[1];
    }
    if TwoOffer(reg, cap) {
      var p, q :| p in reg && q in reg && p != q && cap in p.offers && cap in q.offers;
      assert p in providers && q in providers;
    }
  }

  /** `p` offers the capability and goes before every other target that does. */
  ghost predicate Prevails(reg: seq<Target>, cap: int, fullProvides: set<int>, p: Target) {
    cap in p.offers && forall u | u in reg && cap in u.offers && u != p :: !NotBefore(p, u, fullProvides)
  }

  /** The capability goes to `p`. */
  ghost predicate GoesTo(ctx: Context, cap: int, fullProvides: set<int>, p: Target) {
    Prevails(ctx.reg, cap, fullProvides, p) || (Unoffered(ctx.reg, cap) && Named(ctx, cap, p))
  }

  lemma PrevailsMeans(reg: seq<Target>, cap: int, fullProvides: set<int>, p: Target)
    requires p in reg
    ensures Prevails(reg, cap, fullProvides, p) <==> Wins(Providers(reg, cap), fullProvides, p)
  {
    hide RankFrom, NotBefore;
    forall u ensures NotBefore(p, u, fullProvides) <==> RankFrom(0, p, fullProvides) <= RankFrom(0, u, fullProvides) {
      RankOrdersFields(p, u, fullProvides);
    }
  }

  lemma WinsAlone(candidates: seq<Target>, fullProvides: set<int>, p: Target, q: Target)
    requires Wins(candidates, fullProvides, p) && Wins(candidates, fullProvides, q)
    ensures p == q
  {
    hide RankFrom;
  }

  /** One decision: the target that prevails among those offering the capability, or,
      where none offers it, the one that carries its name. It fails when several offer
      it and none prevails, and in strict mode when nothing supplies it. */
  lemma DecisionMeans(ctx: Context, cap: int, fullProvides: set<int>)
    requires Distinct(ctx.reg)
    ensures var d := Decide(ctx, cap, fullProvides);
            && (forall p | p in ctx.reg :: d.Take? && d.id == p.id <==> GoesTo(ctx, cap, fullProvides, p))
            && (d.Take? ==> forall u | u in ctx.reg :: u.id in d.losers <==> cap in u.offers && u.id != d.id)
            && (d.Skip? <==> !ctx.strict && forall p | p in ctx.reg :: !Supplies(ctx, cap, p))
  {
    hide Wins, Named, Decide;
    var d, providers := Decide(ctx, cap, fullProvides), Providers(ctx.reg, cap);
    UnofferedMeans(ctx.reg, cap);
    if providers == [] {
      NamedDecision(ctx, cap, fullProvides);
    } else {
      assert providers[0] in providers;
      OfferedDecision(ctx, cap, fullProvides);
      assert Supplies(ctx, cap, providers[0]);
    }
  }

  lemma NamedDecision(ctx: Context, cap: int, fullProvides: set<int>)
    requires Distinct(ctx.reg) && Providers(ctx.reg, cap) == []
    ensures var d := Decide(ctx, cap, fullProvides);
            && (forall p | p in ctx.reg :: d.Take? && d.id == p.id <==> Named(ctx, cap, p))
            && (forall p | p in ctx.reg :: cap !in p.offers)
            && (d.Take? ==> d.losers == {})
            && (d.Skip? <==> !ctx.strict && forall p | p in ctx.reg :: !Named(ctx, cap, p))
  {
    UnofferedMeans(ctx.reg, cap);
    forall p | p in ctx.reg ensures Implicit(ctx, cap) == Some(p.id) <==> Named(ctx, cap, p) {
      if Implicit(ctx, cap).Some? {
        var q := ByName(ctx.reg, ctx.caps.value[cap]).value;
        DistinctIds(ctx.reg, p, q);
      }
    }
    hide Providers, Named;
    if Implicit(ctx, cap).Some? {
      var p :| p in ctx.reg && p.id == Implicit(ctx, cap).value;
    }
  }

  lemma DecidedByWin(ctx: Context, cap: int, fullProvides: set<int>)
    requires Providers(ctx.reg, cap) != []
    ensures var d, providers := Decide(ctx, cap, fullProvides), Providers(ctx.reg, cap);
            && !d.Skip?
            && (d.Fail? ==> forall w :: !Wins(providers, fullProvides, w))
            && (d.Take? ==> exists w :: Wins(providers, fullProvides, w) && d.id == w.id &&
                                        d.losers == Ids(providers) - {w.id})
  {
    hide RankFrom;
    var providers := Providers(ctx.reg, cap);
    if |providers| == 1 {
      var w := providers[0];
      assert Wins(providers, fullProvides, w);
      assert Ids(providers) == {w.id};
    }
    hide Wins;
  }

  lemma OfferedDecision(ctx: Context, cap: int, fullProvides: set<int>)
    requires Distinct(ctx.reg) && Providers(ctx.reg, cap) != []
    ensures var d := Decide(ctx, cap, fullProvides);
            && !d.Skip?
            && (forall p | p in ctx.reg :: d.Take? && d.id == p.id <==> Prevails(ctx.reg, cap, fullProvides, p))
            && (d.Take? ==> forall u | u in ctx.reg :: u.id in d.losers <==> cap in u.offers && u.id != d.id)
  {
    hide Decide, Prevails, NotBefore;
    var d, providers := Decide(ctx, cap, fullProvides), Providers(ctx.reg, cap);
    DecidedByWin(ctx, cap, fullProvides);
    forall p | p in ctx.reg
      ensures Prevails(ctx.reg, cap, fullProvides, p) <==> Wins(providers, fullProvides, p)
      ensures p.id in Ids(providers) <==> cap in p.offers
    {
      PrevailsMeans(ctx.reg, cap, fullProvides, p);
      OfferingIds(ctx.reg, cap, p);
    }
    hide Providers, Ids, RankFrom;
    if d.Take? {
      var w :| Wins(providers, fullProvides, w) && d.id == w.id && d.losers == Ids(providers) - {w.id};
      assert w in providers && w in ctx.reg;
      hide Wins;
      forall p | p in ctx.reg ensures Wins(providers, fullProvides, p) <==> d.id == p.id {
        DistinctIds(ctx.reg, p, w);
        if Wins(providers, fullProvides, p) {
          WinsAlone(providers, fullProvides, p, w);
        }
      }
    }
  }

  lemma OfferingIds(reg: seq<Target>, cap: int, p: Target)
    requires Distinct(reg) && p in reg
    ensures p.id in Ids(Providers(reg, cap)) <==> cap in p.offers
  {
    if p.id in Ids(Providers(reg, cap)) {
      var q :| q in Providers(reg, cap) && q.id == p.id;
      DistinctIds(reg, p, q);
    }
  }

  // One pass

  /** The capability of a target's own name, when several targets offer it. */
  function SelfDue(ctx: Context, narrowed: set<int>, t: Target): set<int>
    requires ctx.caps.Some?
  {
    var index := CapIndex(ctx.caps.value, t.name);
    if && (t.kind.Abstract? || t.depends == {})
       && index.Some? && index.value !in narrowed && Contested(ctx.reg, index.value)
    then {index.value} else {}
  }

  /** The capabilities that visiting `t` puts up for decision. */
  function DueFrom(ctx: Context, s: Selection, fullProvides: set<int>, t: Target): set<int>
    requires ctx.caps.Some?
  {
    (t.depends - fullProvides - s.narrowed) + SelfDue(ctx, s.narrowed, t)
  }

  /** A contest over the target's own name. */
  ghost predicate OwnContest(ctx: Context, t: Target, c: int)
    requires ctx.caps.Some?
  {
    (t.kind.Abstract? || t.depends == {}) && CapIndex(ctx.caps.value, t.name) == Some(c) && TwoOffer(ctx.reg, c)
  }

  /** Some selected target needs `c` and none offers it, or holds a contest over it. */
  ghost predicate ComesDue(ctx: Context, s: Selection, c: int)
    requires ctx.caps.Some?
  {
    && c !in s.narrowed
    && exists t :: t in ctx.reg && t.id in s.resolved &&
                   ((c in t.depends && c !in Offered(ctx.reg, s.resolved)) || OwnContest(ctx, t, c))
  }

  ghost function DueOf(ctx: Context, s: Selection, fullProvides: set<int>, ids: set<int>): set<int>
    requires ctx.caps.Some?
  {
    set t, c | t in ctx.reg && t.id in ids && c in DueFrom(ctx, s, fullProvides, t) :: c
  }

  /** `s` after deciding each capability in `due`, all against the same offers. */
  ghost function Apply(ctx: Context, s: Selection, fullProvides: set<int>, due: set<int>): Selection {
    Selection(
      s.resolved + TakenIds(ctx, fullProvides, due),
      s.rejected + LoserIds(ctx, fullProvides, due),
      s.narrowed + (set c | c in due && Contested(ctx.reg, c)))
  }

  ghost function TakenIds(ctx: Context, fullProvides: set<int>, due: set<int>): set<int> {
    set c | c in due && Decide(ctx, c, fullProvides).Take? :: Decide(ctx, c, fullProvides).id
  }

  ghost function LoserIds(ctx: Context, fullProvides: set<int>, due: set<int>): set<int> {
    set x | x in Ids(ctx.reg) && LosesOne(ctx, fullProvides, due, x)
  }

  ghost predicate LosesOne(ctx: Context, fullProvides: set<int>, due: set<int>, x: int) {
    exists c :: c in due && Loses(ctx, fullProvides, c, x)
  }

  ghost predicate Loses(ctx: Context, fullProvides: set<int>, c: int, x: int) {
    var d := Decide(ctx, c, fullProvides);
    d.Take? && x in d.losers
  }

  lemma TakenOneMore(ctx: Context, fullProvides: set<int>, due: set<int>, c: int)
    ensures var d := Decide(ctx, c, fullProvides);
            TakenIds(ctx, fullProvides, due + {c}) == TakenIds(ctx, fullProvides, due) + if d.Take? then {d.id} else {}
  {
  }

  lemma LosersOneMore(ctx: Context, fullProvides: set<int>, due: set<int>, c: int)
    ensures var d := Decide(ctx, c, fullProvides);
            LoserIds(ctx, fullProvides, due + {c}) ==
            LoserIds(ctx, fullProvides, due) + if d.Take? then d.losers else {}
  {
    hide Decide;
    forall x ensures LosesOne(ctx, fullProvides, due + {c}, x)
                <==> LosesOne(ctx, fullProvides, due, x) || Loses(ctx, fullProvides, c, x)
    {
      if LosesOne(ctx, fullProvides, due, x) {
        var k :| k in due && Loses(ctx, fullProvides, k, x);
        assert k in due + {c};
      }
      assert c in due + {c};
    }
  }

  ghost predicate AnyFails(ctx: Context, fullProvides: set<int>, due: set<int>) {
    exists c :: c in due && Decide(ctx, c, fullProvides).Fail?
  }

  ghost function Due(ctx: Context, s: Selection): set<int>
    requires ctx.caps.Some?
  {
    DueOf(ctx, s, Offered(ctx.reg, s.resolved), s.resolved)
  }

  ghost function Pass(ctx: Context, s: Selection): Selection
    requires ctx.caps.Some?
  {
    Apply(ctx, s, Offered(ctx.reg, s.resolved), Due(ctx, s))
  }

  ghost predicate PassFails(ctx: Context, s: Selection)
    requires ctx.caps.Some?
  {
    AnyFails(ctx, Offered(ctx.reg, s.resolved), Due(ctx, s))
  }

  lemma DueMeans(ctx: Context, s: Selection, c: int)
    requires ctx.caps.Some? && Distinct(ctx.reg)
    ensures c in Due(ctx, s) <==> ComesDue(ctx, s, c)
  {
    hide Offered, Contested, TwoOffer, CapIndex;
    var fp := Offered(ctx.reg, s.resolved);
    ContestedMeans(ctx.reg, c);
    forall t ensures c in DueFrom(ctx, s, fp, t) <==>
              c !in s.narrowed && ((c in t.depends && c !in fp) || OwnContest(ctx, t, c))
    {
    }
    hide DueFrom, OwnContest;
  }

  /** One pass: each capability that comes due brings in the target it goes to, by the
      offers before the pass, and one that goes to none fails it unless it may lack. */
  lemma PassMeans(ctx: Context, s: Selection)
    requires ctx.caps.Some? && Distinct(ctx.reg)
    ensures var fp := Offered(ctx.reg, s.resolved);
            && (forall p | p in ctx.reg :: p.id in Pass(ctx, s).resolved <==>
                  p.id in s.resolved || exists c :: ComesDue(ctx, s, c) && GoesTo(ctx, c, fp, p))
            && (PassFails(ctx, s) <==>
                  exists c :: ComesDue(ctx, s, c) && (forall p | p in ctx.reg :: !GoesTo(ctx, c, fp, p)) &&
                              (ctx.strict || !Unoffered(ctx.reg, c)))
  {
    hide Decide, Due, Offered, GoesTo, Supplies, ComesDue, Unoffered, Ids;
    var fp := Offered(ctx.reg, s.resolved);
    forall c ensures c in Due(ctx, s) <==> ComesDue(ctx, s, c) {
      DueMeans(ctx, s, c);
    }
    forall c
      ensures forall p | p in ctx.reg ::
                Decide(ctx, c, fp).Take? && Decide(ctx, c, fp).id == p.id <==> GoesTo(ctx, c, fp, p)
      ensures Decide(ctx, c, fp).Fail? <==>
                (forall p | p in ctx.reg :: !GoesTo(ctx, c, fp, p)) && (ctx.strict || !Unoffered(ctx.reg, c))
    {
      DecisionMeans(ctx, c, fp);
      FailureMeans(ctx, c, fp);
    }
  }

  lemma FailureMeans(ctx: Context, c: int, fp: set<int>)
    requires Distinct(ctx.reg)
    ensures Decide(ctx, c, fp).Fail? <==>
              (forall p | p in ctx.reg :: !GoesTo(ctx, c, fp, p)) && (ctx.strict || !Unoffered(ctx.reg, c))
  {
    hide Decide, Prevails;
    DecisionMeans(ctx, c, fp);
    var d := Decide(ctx, c, fp);
    if d.Take? {
      var p :| p in ctx.reg && p.id == d.id;
      assert GoesTo(ctx, c, fp, p);
    }
  }

  lemma ApplyOneMore(ctx: Context, s: Selection, fullProvides: set<int>, due: set<int>, c: int)
    ensures var cur, next := Apply(ctx, s, fullProvides, due), Apply(ctx, s, fullProvides, due + {c});
            var d := Decide(ctx, c, fullProvides);
            && next.resolved == cur.resolved + (if d.Take? then {d.id} else {})
            && next.rejected == cur.rejected + (if d.Take? then d.losers else {})
            && next.narrowed == cur.narrowed + (if Contested(ctx.reg, c) then {c} else {})
  {
    hide Decide, Contested, TakenIds, LoserIds;
    TakenOneMore(ctx, fullProvides, due, c);
    LosersOneMore(ctx, fullProvides, due, c);
  }

  /** A capability narrowed earlier in the same pass was decided in it. */
  lemma NarrowedWasDue(ctx: Context, s: Selection, fullProvides: set<int>, due: set<int>, c: int)
    requires c in Apply(ctx, s, fullProvides, due).narrowed && c !in s.narrowed
    ensures c in due
  {
  }

  /** The loop that rejects every candidate but the winner. */
  method Losers(providers: seq<Target>, winner: int) returns (losers: set<int>)
    ensures losers == Ids(providers) - {winner}
  {
    losers := {};
    for i := 0 to |providers|
      invariant losers == Ids(providers[..i]) - {winner}
    {
      assert providers[..i + 1] == providers[..i] + [providers[i]];
      IdsAppend(providers[..i], providers[i]);
      if providers[i].id != winner {
        losers := losers + {providers[i].id};
      }
    }
    assert providers[..|providers|] == providers;
  }

  lemma IdsAppend(s: seq<Target>, t: Target)
    ensures Ids(s + [t]) == Ids(s) + {t.id}
  {
  }

  /** The body of the loop over a target's capabilities, past its skip test. */
  method DecideCapability(ctx: Context, cap: int, fullProvides: set<int>, cur: Selection, changed0: bool)
    returns (r: Option<Selection>, changed: bool)
    requires Distinct(ctx.reg)
    ensures r.None? <==> Decide(ctx, cap, fullProvides).Fail?
    ensures r.Some? ==> var d := Decide(ctx, cap, fullProvides);
              && r.value.resolved == cur.resolved + (if d.Take? then {d.id} else {})
              && r.value.rejected == cur.rejected + (if d.Take? then d.losers else {})
              && r.value.narrowed == cur.narrowed + (if Contested(ctx.reg, cap) then {cap} else {})
    ensures r.Some? ==> (changed <==> changed0 || r.value.resolved != cur.resolved)
  {
    hide Narrow, Implicit, Providers, Winner, Distinct, NoDup;
    changed := changed0;
    var providers := Providers(ctx.reg, cap);
    if providers == [] {
      var implicit := Implicit(ctx, cap);
      if implicit.Some? {
        changed := changed || implicit.value !in cur.resolved;
        return Some(cur.(resolved := cur.resolved + {implicit.value})), changed;
      }
      if ctx.strict {
        return None, changed;
      }
      return Some(cur), changed;
    }
    if |providers| == 1 {
      changed := changed || providers[0].id !in cur.resolved;
      return Some(cur.(resolved := cur.resolved + {providers[0].id})), changed;
    }
    ProvidersNoDup(ctx.reg, cap);
    WinnerRemains(providers, fullProvides);
    var narrowed := NarrowProviders(providers, fullProvides);
    if |narrowed| != 1 {
      return None, changed;
    }
    var winner := narrowed[0].id;
    changed := changed || winner !in cur.resolved;
    var losers := Losers(providers, winner);
    return Some(Selection(cur.resolved + {winner}, cur.rejected + losers, cur.narrowed + {cap})), changed;
  }

  /** Where a pass stands once the capabilities in `done` are decided. */
  ghost predicate At(ctx: Context, s: Selection, fullProvides: set<int>, done: set<int>, cur: Selection,
                     changed: bool) {
    && cur == Apply(ctx, s, fullProvides, done)
    && !AnyFails(ctx, fullProvides, done)
    && (changed <==> cur.resolved != s.resolved)
  }

  lemma AtOneMore(ctx: Context, s: Selection, fullProvides: set<int>, done: set<int>, cur: Selection, changed: bool,
                  c: int, next: Selection, changed': bool)
    requires At(ctx, s, fullProvides, done, cur, changed)
    requires var d := Decide(ctx, c, fullProvides);
             && !d.Fail?
             && next.resolved == cur.resolved + (if d.Take? then {d.id} else {})
             && next.rejected == cur.rejected + (if d.Take? then d.losers else {})
             && next.narrowed == cur.narrowed + (if Contested(ctx.reg, c) then {c} else {})
    requires changed' <==> changed || next.resolved != cur.resolved
    ensures At(ctx, s, fullProvides, done + {c}, next, changed')
  {
    hide Decide, Contested;
    ApplyOneMore(ctx, s, fullProvides, done, c);
    assert s.resolved <= cur.resolved;
  }

  lemma AtSame(ctx: Context, s: Selection, fullProvides: set<int>, done: set<int>, done': set<int>, cur: Selection,
               changed: bool)
    requires At(ctx, s, fullProvides, done, cur, changed) && done == done'
    ensures At(ctx, s, fullProvides, done', cur, changed)
  {
  }

  /** The dependency half of a visit: `done` grows by what the target needs. */
  method VisitDependencies(ctx: Context, t: Target, fullProvides: set<int>, cur0: Selection, changed0: bool,
                           ghost s: Selection, ghost done0: set<int>)
    returns (r: Option<Selection>, changed: bool)
    requires Distinct(ctx.reg) && At(ctx, s, fullProvides, done0, cur0, changed0)
    ensures r.None? <==> AnyFails(ctx, fullProvides, t.depends - fullProvides - s.narrowed)
    ensures r.Some? ==> At(ctx, s, fullProvides, done0 + (t.depends - fullProvides - s.narrowed), r.value, changed)
  {
    hide At, AnyFails, Decide, Apply;
    var cur := cur0;
    changed := changed0;
    var caps := Enumerate(t.depends);
    ghost var done := done0;
    for i := 0 to |caps|
      invariant At(ctx, s, fullProvides, done, cur, changed)
      invariant done == done0 + (Elems(caps[..i]) - fullProvides - s.narrowed)
    {
      var c := caps[i];
      assert caps[..i + 1] == caps[..i] + [c];
      ElemsAppend(caps[..i], c);
      if c in fullProvides {
        continue;
      }
      AtNarrowed(ctx, s, fullProvides, done, cur, changed, c);
      if c in cur.narrowed {
        continue;
      }
      var next, changed' := DecideCapability(ctx, c, fullProvides, cur, changed);
      if next.None? {
        FailsIfMember(ctx, fullProvides, t.depends - fullProvides - s.narrowed, c);
        return None, changed;
      }
      AtOneMore(ctx, s, fullProvides, done, cur, changed, c, next.value, changed');
      cur, changed := next.value, changed';
      done := done + {c};
    }
    assert caps[..|caps|] == caps;
    AtNoFailure(ctx, s, fullProvides, done, cur, changed, t.depends - fullProvides - s.narrowed);
    return Some(cur), changed;
  }

  lemma AtNarrowed(ctx: Context, s: Selection, fullProvides: set<int>, done: set<int>, cur: Selection, changed: bool,
                   c: int)
    requires At(ctx, s, fullProvides, done, cur, changed)
    ensures c in cur.narrowed ==> c in s.narrowed || c in done
    ensures c !in cur.narrowed ==> c !in s.narrowed
  {
  }

  lemma FailsIfMember(ctx: Context, fullProvides: set<int>, due: set<int>, c: int)
    requires c in due && Decide(ctx, c, fullProvides).Fail?
    ensures AnyFails(ctx, fullProvides, due)
  {
  }

  lemma AtNoFailure(ctx: Context, s: Selection, fullProvides: set<int>, done: set<int>, cur: Selection, changed: bool,
                    part: set<int>)
    requires At(ctx, s, fullProvides, done, cur, changed) && part <= done
    ensures !AnyFails(ctx, fullProvides, part)
  {
  }

  /** The self-provision half of a visit. */
  method VisitOwnName(ctx: Context, t: Target, fullProvides: set<int>, cur0: Selection, changed0: bool,
                      ghost s: Selection, ghost done: set<int>)
    returns (r: Option<Selection>, changed: bool)
    requires ctx.caps.Some? && Distinct(ctx.reg) && At(ctx, s, fullProvides, done, cur0, changed0)
    ensures r.None? <==> AnyFails(ctx, fullProvides, SelfDue(ctx, s.narrowed, t))
    ensures r.Some? ==> At(ctx, s, fullProvides, done + SelfDue(ctx, s.narrowed, t), r.value, changed)
  {
    hide At, Decide, Apply, CapIndex;
    assert done + {} == done;
    if t.kind.Abstract? || t.depends == {} {
      var index := CapIndex(ctx.caps.value, t.name);
      if index.Some? {
        AtNarrowed(ctx, s, fullProvides, done, cur0, changed0, index.value);
        if index.value in cur0.narrowed {
          if index.value in SelfDue(ctx, s.narrowed, t) {
            assert done + SelfDue(ctx, s.narrowed, t) == done;
            AtNoFailure(ctx, s, fullProvides, done, cur0, changed0, SelfDue(ctx, s.narrowed, t));
          }
          return Some(cur0), changed0;
        }
        if Contested(ctx.reg, index.value) {
          var next, changed' := DecideCapability(ctx, index.value, fullProvides, cur0, changed0);
          if next.None? {
            return None, changed0;
          }
          AtOneMore(ctx, s, fullProvides, done, cur0, changed0, index.value, next.value, changed');
          return next, changed';
        }
      }
    }
    return Some(cur0), changed0;
  }

  lemma DueOneMore(ctx: Context, s: Selection, fullProvides: set<int>, ids: set<int>, t: Target)
    requires ctx.caps.Some? && Distinct(ctx.reg) && t in ctx.reg
    ensures DueOf(ctx, s, fullProvides, ids + {t.id}) ==
            DueOf(ctx, s, fullProvides, ids) + DueFrom(ctx, s, fullProvides, t)
  {
    hide DueFrom;
    forall c | c in DueOf(ctx, s, fullProvides, ids + {t.id})
      ensures c in DueOf(ctx, s, fullProvides, ids) + DueFrom(ctx, s, fullProvides, t)
    {
      var u :| u in ctx.reg && u.id in ids + {t.id} && c in DueFrom(ctx, s, fullProvides, u);
      DistinctIds(ctx.reg, t, u);
    }
    forall c | c in DueOf(ctx, s, fullProvides, ids) ensures c in DueOf(ctx, s, fullProvides, ids + {t.id}) {
      var u :| u in ctx.reg && u.id in ids && c in DueFrom(ctx, s, fullProvides, u);
      assert u.id in ids + {t.id};
    }
    forall c | c in DueFrom(ctx, s, fullProvides, t) ensures c in DueOf(ctx, s, fullProvides, ids + {t.id}) {
      assert t.id in ids + {t.id};
    }
  }

  /** One pass of the loop, visiting the selected targets in whatever order the
      hash set yields. The outcome does not depend on that order. */
  method RunPass(ctx: Context, s: Selection) returns (r: Option<Selection>, changed: bool)
    requires ctx.caps.Some? && Distinct(ctx.reg) && s.resolved <= Ids(ctx.reg)
    ensures r.None? <==> PassFails(ctx, s)
    ensures r.Some? ==> r.value == Pass(ctx, s) && (changed <==> r.value.resolved != s.resolved)
  {
    hide Decide, Apply, DueFrom, SelfDue, ById, Offered, DueOf;
    var fullProvides := ComputeFullProvides(ctx.reg, s.resolved);
    var snapshot := Enumerate(s.resolved);
    var cur := s;
    changed := false;
    PassStarts(ctx, s, fullProvides);
    for i := 0 to |snapshot|
      invariant At(ctx, s, fullProvides, DueOf(ctx, s, fullProvides, Elems(snapshot[..i])), cur, changed)
    {
      ghost var done := DueOf(ctx, s, fullProvides, Elems(snapshot[..i]));
      assert snapshot[..i + 1] == snapshot[..i] + [snapshot[i]];
      ElemsAppend(snapshot[..i], snapshot[i]);
      assert snapshot[i] in Ids(ctx.reg);
      var target := ById(ctx.reg, snapshot[i]);
      var t := target.value;
      DueOneMore(ctx, s, fullProvides, Elems(snapshot[..i]), t);
      DueWithin(ctx, s, fullProvides, t);
      hide At;
      var r1, changed1 := VisitDependencies(ctx, t, fullProvides, cur, changed, s, done);
      if r1.None? {
        FailsInDue(ctx, s, fullProvides, t, t.depends - fullProvides - s.narrowed);
        return None, changed;
      }
      ghost var done1 := done + (t.depends - fullProvides - s.narrowed);
      var r2, changed2 := VisitOwnName(ctx, t, fullProvides, r1.value, changed1, s, done1);
      if r2.None? {
        FailsInDue(ctx, s, fullProvides, t, SelfDue(ctx, s.narrowed, t));
        return None, changed;
      }
      AtSame(ctx, s, fullProvides, done1 + SelfDue(ctx, s.narrowed, t),
             DueOf(ctx, s, fullProvides, Elems(snapshot[..i + 1])), r2.value, changed2);
      cur, changed := r2.value, changed2;
    }
    assert snapshot[..|snapshot|] == snapshot;
    return Some(cur), changed;
  }

  lemma PassStarts(ctx: Context, s: Selection, fullProvides: set<int>)
    requires ctx.caps.Some?
    ensures At(ctx, s, fullProvides, DueOf(ctx, s, fullProvides, Elems<int>([])), s, false)
  {
  }

  lemma DueWithin(ctx: Context, s: Selection, fullProvides: set<int>, t: Target)
    requires ctx.caps.Some?
    ensures DueFrom(ctx, s, fullProvides, t) == (t.depends - fullProvides - s.narrowed) + SelfDue(ctx, s.narrowed, t)
  {
  }

  lemma FailsInDue(ctx: Context, s: Selection, fullProvides: set<int>, t: Target, part: set<int>)
    requires ctx.caps.Some? && t in ctx.reg && t.id in s.resolved && fullProvides == Offered(ctx.reg, s.resolved)
    requires part <= DueFrom(ctx, s, fullProvides, t) && AnyFails(ctx, fullProvides, part)
    ensures PassFails(ctx, s)
  {
    hide Decide;
    var c :| c in part && Decide(ctx, c, fullProvides).Fail?;
    assert c in Due(ctx, s);
  }

  // The whole loop

  lemma PassStaysRegistered(ctx: Context, s: Selection)
    requires ctx.caps.Some? && s.resolved <= Ids(ctx.reg)
    ensures s.resolved <= Pass(ctx, s).resolved <= Ids(ctx.reg)
  {
  }

  lemma GrowthShrinksRest(all: set<int>, a: set<int>, b: set<int>)
    requires a <= b <= all && a != b
    ensures |all - b| < |all - a|
  {
    assert all - a == (all - b) + (b - a);
    var x := Inhabited(b - a);
  }

  /** Passes until one of them adds no target. */
  ghost function Settle(ctx: Context, s: Selection): Option<Selection>
    requires ctx.caps.Some? && s.resolved <= Ids(ctx.reg)
    decreases |Ids(ctx.reg) - s.resolved|
  {
    if PassFails(ctx, s) then None
    else
      var s' := Pass(ctx, s);
      PassStaysRegistered(ctx, s);
      if s'.resolved == s.resolved then Some(s')
      else
        GrowthShrinksRest(Ids(ctx.reg), s.resolved, s'.resolved);
        Settle(ctx, s')
  }

  /** The `while changed` loop: it ends, and every iteration order in every pass
      gives the same selection, or fails. */
  method RunFixpoint(ctx: Context, seeds: set<int>) returns (r: Option<Selection>)
    requires ctx.caps.Some? && Distinct(ctx.reg) && seeds <= Ids(ctx.reg)
    ensures r == Settle(ctx, Selection(seeds, {}, {}))
  {
    hide PassFails, Pass;
    var s := Selection(seeds, {}, {});
    var changed := true;
    while changed
      invariant s.resolved <= Ids(ctx.reg)
      invariant changed ==> Settle(ctx, s) == Settle(ctx, Selection(seeds, {}, {}))
      invariant !changed ==> Settle(ctx, Selection(seeds, {}, {})) == Some(s)
      decreases |Ids(ctx.reg) - s.resolved|, changed
    {
      PassStaysRegistered(ctx, s);
      var next, changed' := RunPass(ctx, s);
      if next.None? {
        return None;
      }
      if changed' {
        GrowthShrinksRest(Ids(ctx.reg), s.resolved, next.value.resolved);
      }
      s, changed := next.value, changed';
    }
    return Some(s);
  }
}
