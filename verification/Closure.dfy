/** src/dag/src/closure.rs: the guarded closure over `depends`. */
module Closures {
  import opened Sequences
  import opened Reachability
  import opened Targets

  /** `caps` is None for the include-all resolver. */
  datatype Context = Context(reg: seq<Target>, caps: Option<seq<string>>, strict: bool)

  /** A capability without providers falls back to the target of that name. */
  function Implicit(ctx: Context, cap: int): (r: Option<int>)
    ensures r.Some? ==> r.value in Ids(ctx.reg)
  {
    if ctx.caps.None? then None
    else
      var name := CapName(ctx.caps.value, cap);
      if name.None? then None
      else
        var t := ByName(ctx.reg, name.value);
        if t.None? then None else Some(t.value.id)
  }

  /** The targets a capability pulls in. */
  ghost function Sources(ctx: Context, cap: int): set<int> {
    if Providers(ctx.reg, cap) != [] then Ids(Providers(ctx.reg, cap))
    else if Implicit(ctx, cap).Some? then {Implicit(ctx, cap).value}
    else {}
  }

  /** Nothing can supply the capability, and that is an error. */
  predicate Missing(ctx: Context, cap: int) {
    ctx.strict && Providers(ctx.reg, cap) == [] && Implicit(ctx, cap).None?
  }

  /** Target `t` pulls in `p`, past the two guards. */
  ghost predicate Pulls(ctx: Context, satisfied: set<int>, rejected: set<int>, t: Target, p: int) {
    p !in rejected && exists c :: c in t.depends && c !in satisfied && p in Sources(ctx, c)
  }

  ghost function PullEdges(ctx: Context, satisfied: set<int>, rejected: set<int>): set<(int, int)> {
    set t, p | t in ctx.reg && p in Ids(ctx.reg) && Pulls(ctx, satisfied, rejected, t, p) :: (t.id, p)
  }

  ghost predicate Pulled(ctx: Context, seeds: set<int>, satisfied: set<int>, rejected: set<int>, x: int) {
    exists s :: s in seeds && Reaches(PullEdges(ctx, satisfied, rejected), s, x)
  }

  ghost function ClosureSet(ctx: Context, seeds: set<int>, satisfied: set<int>, rejected: set<int>): set<int> {
    set x | x in Ids(ctx.reg) && Pulled(ctx, seeds, satisfied, rejected, x)
  }

  /** `t` needs a capability that is missing. */
  ghost predicate Blocked(ctx: Context, satisfied: set<int>, t: Target) {
    exists c :: c in t.depends && c !in satisfied && Missing(ctx, c)
  }

  /** An unregistered id, or a target that needs a missing capability. */
  ghost predicate Bad(ctx: Context, satisfied: set<int>, x: int) {
    x !in Ids(ctx.reg) || exists t :: t in ctx.reg && t.id == x && Blocked(ctx, satisfied, t)
  }

  ghost predicate ClosureFails(ctx: Context, seeds: set<int>, satisfied: set<int>, rejected: set<int>) {
    exists x :: Pulled(ctx, seeds, satisfied, rejected, x) && Bad(ctx, satisfied, x)
  }

  lemma SourcesRegistered(ctx: Context, cap: int)
    ensures Sources(ctx, cap) <= Ids(ctx.reg)
  {
  }

  // The same in the fields of the targets

  ghost predicate Unoffered(reg: seq<Target>, cap: int) {
    forall u :: u in reg ==> cap !in u.offers
  }

  /** `p` carries the name of the capability, if names are known. */
  ghost predicate Named(ctx: Context, cap: int, p: Target) {
    ctx.caps.Some? && 0 <= cap < |ctx.caps.value| && ctx.caps.value[cap] == p.name
  }

  /** A target supplies a capability by offering it; where none does, by its name. */
  ghost predicate Supplies(ctx: Context, cap: int, p: Target) {
    cap in p.offers || (Unoffered(ctx.reg, cap) && Named(ctx, cap, p))
  }

  ghost predicate ClosedPast(ctx: Context, satisfied: set<int>, rejected: set<int>, s: set<int>) {
    forall t, c, p | t in ctx.reg && t.id in s && c in t.depends && c !in satisfied &&
                     p in ctx.reg && p.id !in rejected && Supplies(ctx, c, p) :: p.id in s
  }

  /** No target has this id, or in strict mode it needs what no target supplies. */
  ghost predicate Unmet(ctx: Context, satisfied: set<int>, x: int) {
    || (forall t :: t in ctx.reg ==> t.id != x)
    || (ctx.strict && exists t, c :: t in ctx.reg && t.id == x && c in t.depends && c !in satisfied &&
                                     forall p :: p in ctx.reg ==> !Supplies(ctx, c, p))
  }

  lemma UnofferedMeans(reg: seq<Target>, cap: int)
    ensures Providers(reg, cap) == [] <==> Unoffered(reg, cap)
  {
    if Providers(reg, cap) != [] {
      assert Providers(reg, cap)[0] in Providers(reg, cap);
    }
  }

  lemma SourcesMean(ctx: Context, cap: int, p: Target)
    requires Distinct(ctx.reg) && p in ctx.reg
    ensures p.id in Sources(ctx, cap) <==> Supplies(ctx, cap, p)
  {
    UnofferedMeans(ctx.reg, cap);
    if p.id in Ids(Providers(ctx.reg, cap)) {
      var q :| q in Providers(ctx.reg, cap) && q.id == p.id;
      DistinctIds(ctx.reg, p, q);
    }
    if Implicit(ctx, cap).Some? {
      var q := ByName(ctx.reg, ctx.caps.value[cap]).value;
      DistinctIds(ctx.reg, p, q);
    }
  }

  lemma MissingMeans(ctx: Context, cap: int)
    requires Distinct(ctx.reg)
    ensures Missing(ctx, cap) <==> ctx.strict && forall p :: p in ctx.reg ==> !Supplies(ctx, cap, p)
  {
    UnofferedMeans(ctx.reg, cap);
    forall p | p in ctx.reg ensures p.id in Sources(ctx, cap) <==> Supplies(ctx, cap, p) {
      SourcesMean(ctx, cap, p);
    }
    if Sources(ctx, cap) != {} {
      var x := Inhabited(Sources(ctx, cap));
      SourcesRegistered(ctx, cap);
      var p :| p in ctx.reg && p.id == x;
    }
    assert Providers(ctx.reg, cap) != [] ==> Providers(ctx.reg, cap)[0].id in Sources(ctx, cap) by {
      if Providers(ctx.reg, cap) != [] {
        assert Providers(ctx.reg, cap)[0] in Providers(ctx.reg, cap);
      }
    }
  }

  lemma ClosedPastMeans(ctx: Context, sat: set<int>, rej: set<int>, s: set<int>)
    requires Distinct(ctx.reg)
    ensures ClosedPast(ctx, sat, rej, s) <==> Closed(PullEdges(ctx, sat, rej), s)
  {
    forall c, p | p in ctx.reg ensures p.id in Sources(ctx, c) <==> Supplies(ctx, c, p) {
      SourcesMean(ctx, c, p);
    }
    hide Sources, Supplies;
    if ClosedPast(ctx, sat, rej, s) {
      forall a, b | (a, b) in PullEdges(ctx, sat, rej) && a in s ensures b in s {
        var t :| t in ctx.reg && t.id == a && Pulls(ctx, sat, rej, t, b);
        var c :| c in t.depends && c !in sat && b in Sources(ctx, c);
        var p :| p in ctx.reg && p.id == b;
        assert Supplies(ctx, c, p);
      }
    }
    if Closed(PullEdges(ctx, sat, rej), s) {
      forall t, c, p | t in ctx.reg && t.id in s && c in t.depends && c !in sat && p in ctx.reg && p.id !in rej &&
                       Supplies(ctx, c, p)
        ensures p.id in s
      {
        assert Pulls(ctx, sat, rej, t, p.id);
        assert (t.id, p.id) in PullEdges(ctx, sat, rej);
      }
    }
  }

  lemma UnmetMeans(ctx: Context, sat: set<int>, x: int)
    requires Distinct(ctx.reg)
    ensures Bad(ctx, sat, x) <==> Unmet(ctx, sat, x)
  {
    forall c ensures Missing(ctx, c) <==> ctx.strict && forall p :: p in ctx.reg ==> !Supplies(ctx, c, p) {
      MissingMeans(ctx, c);
    }
    hide Missing, Supplies;
  }

  /** The closure is the least set that holds the seeds and all that its members pull
      in past the guards; it fails exactly when every such set has an unmet member. */
  lemma ClosureMeans(ctx: Context, seeds: set<int>, sat: set<int>, rej: set<int>)
    requires Distinct(ctx.reg)
    ensures !ClosureFails(ctx, seeds, sat, rej) ==>
              && seeds <= ClosureSet(ctx, seeds, sat, rej)
              && ClosedPast(ctx, sat, rej, ClosureSet(ctx, seeds, sat, rej))
              && (forall x :: x in ClosureSet(ctx, seeds, sat, rej) ==> !Unmet(ctx, sat, x))
    ensures forall s :: seeds <= s && ClosedPast(ctx, sat, rej, s) ==> ClosureSet(ctx, seeds, sat, rej) <= s
    ensures ClosureFails(ctx, seeds, sat, rej) <==>
              forall s :: seeds <= s && ClosedPast(ctx, sat, rej, s) ==> exists x :: x in s && Unmet(ctx, sat, x)
  {
    hide ClosedPast, Unmet, Bad, PullEdges;
    var edges, closure := PullEdges(ctx, sat, rej), ClosureSet(ctx, seeds, sat, rej);
    forall x ensures Bad(ctx, sat, x) <==> Unmet(ctx, sat, x) {
      UnmetMeans(ctx, sat, x);
    }
    forall s ensures ClosedPast(ctx, sat, rej, s) <==> Closed(edges, s) {
      ClosedPastMeans(ctx, sat, rej, s);
    }
    forall s, x | seeds <= s && Closed(edges, s) && Pulled(ctx, seeds, sat, rej, x) ensures x in s {
      var a :| a in seeds && Reaches(edges, a, x);
      ClosedHolds(edges, s, a, x);
    }
    if !ClosureFails(ctx, seeds, sat, rej) {
      ClosureHolds(ctx, seeds, sat, rej);
    }
  }

  lemma ClosureHolds(ctx: Context, seeds: set<int>, sat: set<int>, rej: set<int>)
    requires !ClosureFails(ctx, seeds, sat, rej)
    ensures seeds <= ClosureSet(ctx, seeds, sat, rej)
    ensures Closed(PullEdges(ctx, sat, rej), ClosureSet(ctx, seeds, sat, rej))
    ensures forall x :: x in ClosureSet(ctx, seeds, sat, rej) ==> !Bad(ctx, sat, x)
  {
    hide Pulls, Reaches, Blocked;
    var edges := PullEdges(ctx, sat, rej);
    forall x | x in seeds ensures x in ClosureSet(ctx, seeds, sat, rej) {
      ReachesSelf(edges, x);
      assert Pulled(ctx, seeds, sat, rej, x) && !Bad(ctx, sat, x);
    }
    forall a, b | (a, b) in edges && a in ClosureSet(ctx, seeds, sat, rej)
      ensures b in ClosureSet(ctx, seeds, sat, rej)
    {
      var s :| s in seeds && Reaches(edges, s, a);
      ReachesStep(edges, s, a, b);
    }
  }

  /** All that was seen or is due is pulled in, and nothing pulled in is lost. */
  ghost predicate Exploring(ctx: Context, seeds: set<int>, sat: set<int>, rej: set<int>, seen: set<int>,
                            due: seq<int>) {
    && (forall x :: x in seen || x in due ==> Pulled(ctx, seeds, sat, rej, x))
    && (forall s :: s in seeds ==> s in seen || s in due)
    && (forall v :: v in seen ==> !Bad(ctx, sat, v))
    && (forall v, p :: v in seen && (v, p) in PullEdges(ctx, sat, rej) ==> p in seen || p in due)
  }

  lemma ExploringStarts(ctx: Context, seeds: seq<int>, sat: set<int>, rej: set<int>)
    ensures Exploring(ctx, Elems(seeds), sat, rej, {}, seeds)
  {
    forall s | s in seeds ensures Pulled(ctx, Elems(seeds), sat, rej, s) {
      assert s in Elems(seeds);
      ReachesSelf(PullEdges(ctx, sat, rej), s);
    }
  }

  lemma ExploringSkip(ctx: Context, seeds: set<int>, sat: set<int>, rej: set<int>, seen: set<int>, due: seq<int>,
                      rest: seq<int>, x: int)
    requires Exploring(ctx, seeds, sat, rej, seen, due) && due == rest + [x] && x in seen
    ensures Exploring(ctx, seeds, sat, rej, seen, rest)
  {
  }

  lemma PulledStep(ctx: Context, seeds: set<int>, sat: set<int>, rej: set<int>, t: Target, p: int)
    requires Pulled(ctx, seeds, sat, rej, t.id) && t in ctx.reg && p in Ids(ctx.reg) && Pulls(ctx, sat, rej, t, p)
    ensures Pulled(ctx, seeds, sat, rej, p)
  {
    var s :| s in seeds && Reaches(PullEdges(ctx, sat, rej), s, t.id);
    assert (t.id, p) in PullEdges(ctx, sat, rej);
    ReachesStep(PullEdges(ctx, sat, rej), s, t.id, p);
  }

  lemma ExploringStep(ctx: Context, seeds: set<int>, sat: set<int>, rej: set<int>, seen: set<int>, due: seq<int>,
                      rest: seq<int>, t: Target, due': seq<int>)
    requires Distinct(ctx.reg) && t in ctx.reg && !Blocked(ctx, sat, t)
    requires Exploring(ctx, seeds, sat, rej, seen, due) && due == rest + [t.id]
    requires forall y :: y in rest ==> y in due'
    requires forall y :: y in due' ==> y in rest || (y in Ids(ctx.reg) && Pulls(ctx, sat, rej, t, y))
    requires forall p :: p in Ids(ctx.reg) && Pulls(ctx, sat, rej, t, p) ==> p in seen + {t.id} || p in due'
    ensures Exploring(ctx, seeds, sat, rej, seen + {t.id}, due')
  {
    hide Pulled, Pulls, Blocked;
    assert forall y :: y in due <==> y in rest || y == t.id;
    forall y | y in due' ensures Pulled(ctx, seeds, sat, rej, y) {
      if y !in rest {
        PulledStep(ctx, seeds, sat, rej, t, y);
      }
    }
    assert !Bad(ctx, sat, t.id) by {
      forall u | u in ctx.reg && u.id == t.id ensures u == t {
        DistinctIds(ctx.reg, t, u);
      }
    }
    forall v, p | v in seen + {t.id} && (v, p) in PullEdges(ctx, sat, rej) ensures p in seen + {t.id} || p in due' {
      if v == t.id {
        EdgeFrom(ctx, sat, rej, t, p);
      } else {
        assert p in seen || p in due;
      }
    }
  }

  lemma EdgeFrom(ctx: Context, sat: set<int>, rej: set<int>, t: Target, p: int)
    requires Distinct(ctx.reg) && t in ctx.reg && (t.id, p) in PullEdges(ctx, sat, rej)
    ensures p in Ids(ctx.reg) && Pulls(ctx, sat, rej, t, p)
  {
  }

  lemma ExploringEnds(ctx: Context, seeds: set<int>, sat: set<int>, rej: set<int>, seen: set<int>)
    requires Exploring(ctx, seeds, sat, rej, seen, [])
    ensures !ClosureFails(ctx, seeds, sat, rej)
    ensures seen == ClosureSet(ctx, seeds, sat, rej)
  {
    var edges := PullEdges(ctx, sat, rej);
    forall x | Pulled(ctx, seeds, sat, rej, x) ensures x in seen {
      var s :| s in seeds && Reaches(edges, s, x);
      ClosedHolds(edges, seen, s, x);
    }
    forall x | x in seen ensures x in ClosureSet(ctx, seeds, sat, rej) {
      assert !Bad(ctx, sat, x);
    }
  }

  /** The pushes for one capability that is not satisfied. */
  method PushSources(ctx: Context, cap: int, visited: set<int>, rejected: set<int>, stack0: seq<int>)
    returns (r: Option<seq<int>>)
    ensures r.None? <==> Missing(ctx, cap)
    ensures r.Some? ==> stack0 <= r.value
    ensures r.Some? ==> forall y :: y in r.value ==> y in stack0 || (y in Sources(ctx, cap) && y !in rejected)
    ensures r.Some? ==> forall p :: p in Sources(ctx, cap) && p !in rejected ==> p in visited || p in r.value
  {
    var stack := stack0;
    var providers := Providers(ctx.reg, cap);
    if providers == [] {
      var implicit := Implicit(ctx, cap);
      if implicit.Some? {
        if implicit.value !in visited && implicit.value !in rejected {
          stack := stack + [implicit.value];
        }
        return Some(stack);
      }
      if ctx.strict {
        return None;
      }
      return Some(stack);
    }
    for i := 0 to |providers|
      invariant stack0 <= stack
      invariant forall y :: y in stack ==> y in stack0 || (y in Ids(providers) && y !in rejected)
      invariant forall j :: 0 <= j < i ==>
                  providers[j].id in rejected || providers[j].id in visited || providers[j].id in stack
    {
      var p := providers[i].id;
      assert providers[i] in providers;
      if p !in visited && p !in rejected {
        stack := stack + [p];
      }
    }
    return Some(stack);
  }

  /** The loop over the capabilities of one target. */
  method PushDependencies(ctx: Context, t: Target, visited: set<int>, satisfied: set<int>, rejected: set<int>,
                          stack0: seq<int>)
    returns (r: Option<seq<int>>)
    ensures r.None? <==> Blocked(ctx, satisfied, t)
    ensures r.Some? ==> forall y :: y in stack0 ==> y in r.value
    ensures r.Some? ==> forall y :: y in r.value ==>
              y in stack0 || (y in Ids(ctx.reg) && Pulls(ctx, satisfied, rejected, t, y))
    ensures r.Some? ==> forall p :: Pulls(ctx, satisfied, rejected, t, p) ==> p in visited || p in r.value
  {
    hide Sources, Missing;
    var stack := stack0;
    var caps := Enumerate(t.depends);
    for i := 0 to |caps|
      invariant forall y :: y in stack0 ==> y in stack
      invariant forall y :: y in stack ==>
                  y in stack0 || (y in Ids(ctx.reg) && Pulls(ctx, satisfied, rejected, t, y))
      invariant forall j, p :: 0 <= j < i && caps[j] !in satisfied && p in Sources(ctx, caps[j]) && p !in rejected
                  ==> p in visited || p in stack
      invariant forall j :: 0 <= j < i && caps[j] !in satisfied ==> !Missing(ctx, caps[j])
    {
      if caps[i] !in satisfied {
        assert caps[i] in t.depends;
        var pushed := PushSources(ctx, caps[i], visited, rejected, stack);
        if pushed.None? {
          return None;
        }
        SourcesRegistered(ctx, caps[i]);
        assert forall y :: y in stack ==> y in pushed.value;
        stack := pushed.value;
      }
    }
    forall c | c in t.depends && c !in satisfied ensures !Missing(ctx, c) {
      assert c in caps;
    }
    forall p | Pulls(ctx, satisfied, rejected, t, p) ensures p in visited || p in stack {
      var c :| c in t.depends && c !in satisfied && p in Sources(ctx, c);
      assert c in caps;
    }
    return Some(stack);
  }

  /** `transitive_closure`: all that the seeds pull in past the guards, or failure
      exactly when that includes an unknown id or a missing capability. */
  method TransitiveClosure(ctx: Context, seeds: seq<int>, satisfied: set<int>, rejected: set<int>)
    returns (r: Option<set<int>>)
    requires Distinct(ctx.reg)
    ensures r.None? <==> ClosureFails(ctx, Elems(seeds), satisfied, rejected)
    ensures r.Some? ==> r.value == ClosureSet(ctx, Elems(seeds), satisfied, rejected)
    ensures r.None? <==> forall s :: Elems(seeds) <= s && ClosedPast(ctx, satisfied, rejected, s) ==>
              exists x :: x in s && Unmet(ctx, satisfied, x)
    ensures r.Some? ==> Elems(seeds) <= r.value && ClosedPast(ctx, satisfied, rejected, r.value)
    ensures r.Some? ==> forall s :: Elems(seeds) <= s && ClosedPast(ctx, satisfied, rejected, s) ==> r.value <= s
  {
    hide Exploring, Pulls, Blocked, PullEdges, ClosureSet, Pulled, ClosedPast, Unmet, ClosureFails;
    ClosureMeans(ctx, Elems(seeds), satisfied, rejected);
    var visited: set<int> := {};
    var stack := seeds;
    ExploringStarts(ctx, seeds, satisfied, rejected);
    while stack != []
      invariant Exploring(ctx, Elems(seeds), satisfied, rejected, visited, stack)
      decreases |Ids(ctx.reg) - visited|, |stack|
    {
      var rest, x := stack[..|stack| - 1], stack[|stack| - 1];
      assert stack == rest + [x];
      if x in visited {
        ExploringSkip(ctx, Elems(seeds), satisfied, rejected, visited, stack, rest, x);
        stack := rest;
      } else {
        ExploringReaches(ctx, Elems(seeds), satisfied, rejected, visited, stack, x);
        var target := ById(ctx.reg, x);
        if target.None? {
          assert Bad(ctx, satisfied, x);
          FailsIfBad(ctx, Elems(seeds), satisfied, rejected, x);
          return None;
        }
        var pushed := PushDependencies(ctx, target.value, visited + {x}, satisfied, rejected, rest);
        if pushed.None? {
          assert Bad(ctx, satisfied, x);
          FailsIfBad(ctx, Elems(seeds), satisfied, rejected, x);
          return None;
        }
        ExploringStep(ctx, Elems(seeds), satisfied, rejected, visited, stack, rest, target.value, pushed.value);
        OneFewer(Ids(ctx.reg), visited, x);
        visited := visited + {x};
        stack := pushed.value;
      }
    }
    ExploringEnds(ctx, Elems(seeds), satisfied, rejected, visited);
    return Some(visited);
  }

  lemma FailsIfBad(ctx: Context, seeds: set<int>, sat: set<int>, rej: set<int>, x: int)
    requires Pulled(ctx, seeds, sat, rej, x) && Bad(ctx, sat, x)
    ensures ClosureFails(ctx, seeds, sat, rej)
  {
  }

  lemma ExploringReaches(ctx: Context, seeds: set<int>, sat: set<int>, rej: set<int>, seen: set<int>, due: seq<int>,
                         x: int)
    requires Exploring(ctx, seeds, sat, rej, seen, due) && x in due
    ensures Pulled(ctx, seeds, sat, rej, x)
  {
  }
}
