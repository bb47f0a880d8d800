/** src/dag/src/resolver.rs: why a target is selected at all, and whether a target
    that lost a contest can still be in the plan. */
module Losers {
  import opened Sequences
  import opened Reachability
  import opened Targets
  import opened Closures
  import opened Selections
  import opened Resolver

  // Everything selected is called for

  /** A capability that visiting `t` may put up for decision in some pass. */
  ghost predicate Raises(ctx: Context, t: Target, c: int)
    requires ctx.caps.Some?
  {
    c in t.depends || c in SelfDue(ctx, {}, t)
  }

  ghost predicate CallsFor(ctx: Context, t: Target, p: int)
    requires ctx.caps.Some?
  {
    exists c :: Raises(ctx, t, c) && p in Sources(ctx, c)
  }

  ghost function CallEdges(ctx: Context): set<(int, int)>
    requires ctx.caps.Some?
  {
    set t, p | t in ctx.reg && p in Ids(ctx.reg) && CallsFor(ctx, t, p) :: (t.id, p)
  }

  /** Some seed calls for `x`, directly or through other targets. */
  ghost predicate Grounded(ctx: Context, seeds: set<int>, x: int)
    requires ctx.caps.Some?
  {
    exists s :: s in seeds && Reaches(CallEdges(ctx), s, x)
  }

  ghost predicate AllGrounded(ctx: Context, seeds: set<int>, ids: set<int>)
    requires ctx.caps.Some?
  {
    forall x :: x in ids ==> Grounded(ctx, seeds, x)
  }

  lemma TakenIsSource(ctx: Context, c: int, fp: set<int>)
    requires Decide(ctx, c, fp).Take?
    ensures Decide(ctx, c, fp).id in Sources(ctx, c)
    ensures Decide(ctx, c, fp).id in Ids(ctx.reg)
  {
    if Providers(ctx.reg, c) != [] {
      TakenOffers(ctx, c, fp);
      var t :| t in ctx.reg && t.id == Decide(ctx, c, fp).id && c in t.offers;
      assert t in Providers(ctx.reg, c);
    }
  }

  lemma DueIsRaised(ctx: Context, s: Selection, fp: set<int>, t: Target, c: int)
    requires ctx.caps.Some? && c in DueFrom(ctx, s, fp, t)
    ensures Raises(ctx, t, c) && c !in s.narrowed
  {
  }

  lemma GroundedStep(ctx: Context, seeds: set<int>, t: Target, c: int, p: int)
    requires ctx.caps.Some? && Grounded(ctx, seeds, t.id) && t in ctx.reg && p in Ids(ctx.reg)
    requires Raises(ctx, t, c) && p in Sources(ctx, c)
    ensures Grounded(ctx, seeds, p)
  {
    hide Raises, Sources;
    assert CallsFor(ctx, t, p);
    var s :| s in seeds && Reaches(CallEdges(ctx), s, t.id);
    ReachesStep(CallEdges(ctx), s, t.id, p);
  }

  lemma PassKeepsGrounded(ctx: Context, seeds: set<int>, s: Selection)
    requires ctx.caps.Some? && AllGrounded(ctx, seeds, s.resolved)
    ensures AllGrounded(ctx, seeds, Pass(ctx, s).resolved)
  {
    hide Decide, DueFrom, Offered, Raises, Sources, Grounded;
    var fp := Offered(ctx.reg, s.resolved);
    forall x | x in TakenIds(ctx, fp, Due(ctx, s)) ensures Grounded(ctx, seeds, x) {
      var c :| c in Due(ctx, s) && Decide(ctx, c, fp).Take? && Decide(ctx, c, fp).id == x;
      var t :| t in ctx.reg && t.id in s.resolved && c in DueFrom(ctx, s, fp, t);
      DueIsRaised(ctx, s, fp, t, c);
      TakenIsSource(ctx, c, fp);
      GroundedStep(ctx, seeds, t, c, x);
    }
  }

  lemma {:induction false} SettleKeepsGrounded(ctx: Context, seeds: set<int>, s: Selection)
    requires ctx.caps.Some? && s.resolved <= Ids(ctx.reg) && AllGrounded(ctx, seeds, s.resolved)
    ensures Settle(ctx, s).Some? ==> AllGrounded(ctx, seeds, Settle(ctx, s).value.resolved)
    decreases |Ids(ctx.reg) - s.resolved|
  {
    hide Pass, PassFails, AllGrounded;
    if !PassFails(ctx, s) {
      PassStaysRegistered(ctx, s);
      PassKeepsGrounded(ctx, seeds, s);
      if Pass(ctx, s).resolved != s.resolved {
        GrowthShrinksRest(Ids(ctx.reg), s.resolved, Pass(ctx, s).resolved);
        SettleKeepsGrounded(ctx, seeds, Pass(ctx, s));
      }
    }
  }

  lemma SeedsGrounded(ctx: Context, seeds: set<int>)
    requires ctx.caps.Some?
    ensures AllGrounded(ctx, seeds, seeds)
  {
    forall s | s in seeds ensures Grounded(ctx, seeds, s) {
      ReachesSelf(CallEdges(ctx), s);
    }
  }

  /** A plan holds nothing that no seed calls for. */
  lemma SelectedIsGrounded(ctx: Context, seeds: set<int>, x: int)
    requires ctx.caps.Some? && Distinct(ctx.reg) && seeds <= Ids(ctx.reg)
    requires SelectNarrowed(ctx, seeds).Some? && x in SelectNarrowed(ctx, seeds).value
    ensures Grounded(ctx, seeds, x)
  {
    hide SelectNarrowed, Settle, SelfSufficient;
    SeedsGrounded(ctx, seeds);
    SettleKeepsGrounded(ctx, seeds, Selection(seeds, {}, {}));
    SelectNarrowedIsSettled(ctx, seeds);
  }

  // Losers of a contest

  /** `t` puts `c` up for decision, which a dependency that a seed offers never is. */
  ghost predicate ComesUp(ctx: Context, seeds: set<int>, t: Target, c: int)
    requires ctx.caps.Some?
  {
    (c in t.depends && c !in Offered(ctx.reg, seeds)) || c in SelfDue(ctx, {}, t)
  }

  /** Some target that the seeds call for may put `c` up for decision. */
  ghost predicate Raised(ctx: Context, seeds: set<int>, c: int)
    requires ctx.caps.Some?
  {
    exists t :: t in ctx.reg && Grounded(ctx, seeds, t.id) && ComesUp(ctx, seeds, t, c)
  }

  ghost predicate Candidate(ctx: Context, seeds: set<int>, c: int, p: Target)
    requires ctx.caps.Some?
  {
    Raised(ctx, seeds, c) && Contested(ctx.reg, c) && p in Providers(ctx.reg, c)
  }

  /** No target that may enter a contest is a seed, which only a contest over an own
      name allows for, or may be taken for anything else that comes up. */
  ghost predicate ContestsApart(ctx: Context, seeds: set<int>)
    requires ctx.caps.Some?
  {
    forall c, p | Candidate(ctx, seeds, c, p) ::
      p.id !in seeds && forall k :: Raised(ctx, seeds, k) && p.id in Sources(ctx, k) ==> k == c
  }

  /** Losers are out, and a contest not yet held has touched none of its candidates. */
  ghost predicate LosersOut(ctx: Context, seeds: set<int>, s: Selection)
    requires ctx.caps.Some?
  {
    && s.resolved !! s.rejected
    && (forall x | x in s.rejected :: exists c, p :: c in s.narrowed && Candidate(ctx, seeds, c, p) && p.id == x)
    && (forall c, p | Candidate(ctx, seeds, c, p) && c !in s.narrowed :: p.id !in s.resolved && p.id !in s.rejected)
  }

  ghost predicate AllRaised(ctx: Context, seeds: set<int>, due: set<int>)
    requires ctx.caps.Some?
  {
    forall c | c in due :: Raised(ctx, seeds, c)
  }

  lemma DueIsAllRaised(ctx: Context, seeds: set<int>, s: Selection)
    requires ctx.caps.Some? && AllGrounded(ctx, seeds, s.resolved) && seeds <= s.resolved
    ensures AllRaised(ctx, seeds, Due(ctx, s)) && Due(ctx, s) !! s.narrowed
  {
    hide DueFrom, Offered, ComesUp, Grounded;
    var fp := Offered(ctx.reg, s.resolved);
    OfferedMonotone(ctx.reg, seeds, s.resolved);
    forall c | c in Due(ctx, s) ensures Raised(ctx, seeds, c) && c !in s.narrowed {
      var t :| t in ctx.reg && t.id in s.resolved && c in DueFrom(ctx, s, fp, t);
      DueComesUp(ctx, seeds, s, fp, t, c);
    }
  }

  lemma DueComesUp(ctx: Context, seeds: set<int>, s: Selection, fp: set<int>, t: Target, c: int)
    requires ctx.caps.Some? && Offered(ctx.reg, seeds) <= fp && c in DueFrom(ctx, s, fp, t)
    ensures ComesUp(ctx, seeds, t, c) && c !in s.narrowed
  {
    hide Offered;
    DueIsRaised(ctx, s, fp, t, c);
  }

  /** A candidate that was taken was taken as the winner of its own contest. */
  lemma TakenCandidateWon(ctx: Context, seeds: set<int>, fp: set<int>, due: set<int>, c: int, p: Target)
    requires ctx.caps.Some? && ContestsApart(ctx, seeds) && AllRaised(ctx, seeds, due)
    requires Candidate(ctx, seeds, c, p) && p.id in TakenIds(ctx, fp, due)
    ensures c in due && Decide(ctx, c, fp).Take? && Decide(ctx, c, fp).id == p.id
  {
    hide Decide, Candidate, Raised, Sources;
    var k :| k in due && Decide(ctx, k, fp).Take? && Decide(ctx, k, fp).id == p.id;
    TakenIsSource(ctx, k, fp);
  }

  lemma LoserLost(ctx: Context, seeds: set<int>, fp: set<int>, due: set<int>, x: int) returns (c: int, p: Target)
    requires ctx.caps.Some? && AllRaised(ctx, seeds, due) && x in LoserIds(ctx, fp, due)
    ensures c in due && Candidate(ctx, seeds, c, p) && p.id == x && x in Sources(ctx, c)
    ensures Decide(ctx, c, fp).Take? && Decide(ctx, c, fp).id != x
  {
    hide Providers, Winner, Implicit, Raised;
    c :| c in due && Loses(ctx, fp, c, x);
    p :| p in Providers(ctx.reg, c) && p.id == x;
  }

  lemma CandidateNarrowed(ctx: Context, seeds: set<int>, s: Selection, fp: set<int>, due: set<int>, c: int, p: Target)
    requires ctx.caps.Some? && Candidate(ctx, seeds, c, p) && c in due
    ensures c in Apply(ctx, s, fp, due).narrowed
  {
  }

  /** A contest outside `due` leaves its candidates alone. */
  lemma CandidateUntouched(ctx: Context, seeds: set<int>, fp: set<int>, due: set<int>, c: int, p: Target)
    requires ctx.caps.Some? && ContestsApart(ctx, seeds) && AllRaised(ctx, seeds, due)
    requires Candidate(ctx, seeds, c, p) && c !in due
    ensures p.id !in TakenIds(ctx, fp, due) && p.id !in LoserIds(ctx, fp, due)
  {
    hide Decide, TakenIds, LoserIds, Candidate, Raised, Sources;
    if p.id in TakenIds(ctx, fp, due) {
      TakenCandidateWon(ctx, seeds, fp, due, c, p);
    }
    if p.id in LoserIds(ctx, fp, due) {
      var k, q := LoserLost(ctx, seeds, fp, due, p.id);
    }
  }

  lemma PassKeepsLosersOut(ctx: Context, seeds: set<int>, s: Selection)
    requires ctx.caps.Some? && ContestsApart(ctx, seeds) && AllGrounded(ctx, seeds, s.resolved)
    requires LosersOut(ctx, seeds, s) && seeds <= s.resolved
    ensures LosersOut(ctx, seeds, Pass(ctx, s))
  {
    hide Decide, Offered, TakenIds, LoserIds, Candidate, ContestsApart, Due, AllRaised, AllGrounded, Sources;
    var fp, due, s' := Offered(ctx.reg, s.resolved), Due(ctx, s), Pass(ctx, s);
    DueIsAllRaised(ctx, seeds, s);
    forall c, p | Candidate(ctx, seeds, c, p) && p.id in TakenIds(ctx, fp, due)
      ensures c in due && Decide(ctx, c, fp).Take? && Decide(ctx, c, fp).id == p.id
    {
      TakenCandidateWon(ctx, seeds, fp, due, c, p);
    }
    forall x | x in LoserIds(ctx, fp, due)
      ensures x !in s.resolved && x !in TakenIds(ctx, fp, due)
      ensures exists c, p :: c in s'.narrowed && Candidate(ctx, seeds, c, p) && p.id == x
    {
      LoserIsOut(ctx, seeds, s, fp, due, x);
    }
    forall x | x in s.rejected
      ensures x !in TakenIds(ctx, fp, due)
      ensures exists c, p :: c in s'.narrowed && Candidate(ctx, seeds, c, p) && p.id == x
    {
      var c, p :| c in s.narrowed && Candidate(ctx, seeds, c, p) && p.id == x;
      assert c in s'.narrowed;
    }
    forall c, p | Candidate(ctx, seeds, c, p) && c !in s'.narrowed
      ensures p.id !in s'.resolved && p.id !in s'.rejected
    {
      if c in due {
        CandidateNarrowed(ctx, seeds, s, fp, due, c, p);
      }
      CandidateUntouched(ctx, seeds, fp, due, c, p);
    }
  }

  lemma LoserIsOut(ctx: Context, seeds: set<int>, s: Selection, fp: set<int>, due: set<int>, x: int)
    requires ctx.caps.Some? && ContestsApart(ctx, seeds) && AllRaised(ctx, seeds, due) && LosersOut(ctx, seeds, s)
    requires x in LoserIds(ctx, fp, due) && due !! s.narrowed
    ensures x !in s.resolved && x !in TakenIds(ctx, fp, due)
    ensures exists c, p :: c in Apply(ctx, s, fp, due).narrowed && Candidate(ctx, seeds, c, p) && p.id == x
  {
    hide Decide, TakenIds, LoserIds, Candidate, ContestsApart, AllRaised, Sources, Apply;
    var c, p := LoserLost(ctx, seeds, fp, due, x);
    CandidateNarrowed(ctx, seeds, s, fp, due, c, p);
    if x in TakenIds(ctx, fp, due) {
      TakenCandidateWon(ctx, seeds, fp, due, c, p);
    }
  }

  lemma {:induction false} SettleKeepsLosersOut(ctx: Context, seeds: set<int>, s: Selection)
    requires ctx.caps.Some? && s.resolved <= Ids(ctx.reg) && AllGrounded(ctx, seeds, s.resolved)
    requires ContestsApart(ctx, seeds) && LosersOut(ctx, seeds, s) && seeds <= s.resolved
    ensures Settle(ctx, s).Some? ==> LosersOut(ctx, seeds, Settle(ctx, s).value)
    decreases |Ids(ctx.reg) - s.resolved|
  {
    hide Pass, PassFails, LosersOut, ContestsApart, AllGrounded;
    if !PassFails(ctx, s) {
      PassStaysRegistered(ctx, s);
      PassKeepsGrounded(ctx, seeds, s);
      PassKeepsLosersOut(ctx, seeds, s);
      if Pass(ctx, s).resolved != s.resolved {
        GrowthShrinksRest(Ids(ctx.reg), s.resolved, Pass(ctx, s).resolved);
        SettleKeepsLosersOut(ctx, seeds, Pass(ctx, s));
      }
    }
  }

  /** With contests kept apart, no target that lost one is selected. */
  lemma LosersStayOut(ctx: Context, seeds: set<int>)
    requires ctx.caps.Some? && Distinct(ctx.reg) && seeds <= Ids(ctx.reg) && ContestsApart(ctx, seeds)
    ensures var settled := Settle(ctx, Selection(seeds, {}, {}));
            settled.Some? ==> SelectNarrowed(ctx, seeds) == Some(settled.value.resolved) &&
                              settled.value.resolved !! settled.value.rejected
  {
    hide Settle, Candidate, Grounded, SelectNarrowed;
    SeedsGrounded(ctx, seeds);
    assert LosersOut(ctx, seeds, Selection(seeds, {}, {}));
    SettleKeepsLosersOut(ctx, seeds, Selection(seeds, {}, {}));
    SelectNarrowedIsSettled(ctx, seeds);
  }
}
