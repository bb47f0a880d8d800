/** src/dag/src/narrowing.rs: choosing among several providers of a capability. */
module Narrowing {
  import opened Sequences
  import opened Targets

  const STAGES := 3

  /** The three filters in priority order, and the final no-dependency one. */
  predicate StageKeeps(stage: nat, t: Target, fullProvides: set<int>) {
    match stage
    case 0 => t.essential
    case 1 => t.depends == {} || t.depends <= fullProvides
    case 2 => t.depends != {} && t.depends * fullProvides != {}
    case _ => t.depends == {}
  }

  function Keep(stage: nat, s: seq<Target>, fullProvides: set<int>): (r: seq<Target>)
    ensures forall t :: t in r <==> t in s && StageKeeps(stage, t, fullProvides)
    ensures |r| <= |s|
  {
    if s == [] then []
    else
      var last := s[|s| - 1];
      assert s == s[..|s| - 1] + [last];
      Keep(stage, s[..|s| - 1], fullProvides) + if StageKeeps(stage, last, fullProvides) then [last] else []
  }

  lemma {:induction false} KeepAll(stage: nat, s: seq<Target>, fullProvides: set<int>)
    requires |Keep(stage, s, fullProvides)| == |s|
    ensures Keep(stage, s, fullProvides) == s
  {
    hide StageKeeps;
    if s != [] {
      var front, last := s[..|s| - 1], s[|s| - 1];
      var kept := Keep(stage, front, fullProvides);
      assert |kept| <= |front| && |Keep(stage, s, fullProvides)| <= |kept| + 1;
      KeepAll(stage, front, fullProvides);
      assert s == front + [last];
    }
  }

  /** One filter; a filter that would leave nothing is not applied. */
  function Stage(stage: nat, s: seq<Target>, fullProvides: set<int>): seq<Target> {
    var kept := Keep(stage, s, fullProvides);
    if kept == [] then s else kept
  }

  /** What remains after the filters from `stage` on. */
  function Narrowed(stage: nat, s: seq<Target>, fullProvides: set<int>): seq<Target>
    decreases STAGES - stage
  {
    if stage >= STAGES then
      var noDeps := Keep(STAGES, s, fullProvides);
      if noDeps != [] && |noDeps| < |s| then noDeps else s
    else
      var n := Stage(stage, s, fullProvides);
      if |n| <= 1 then n else Narrowed(stage + 1, n, fullProvides)
  }

  /** `narrow_providers`. */
  method NarrowProviders(candidates: seq<Target>, fullProvides: set<int>) returns (r: seq<Target>)
    ensures r == Narrow(candidates, fullProvides)
    // Field by field: an essential candidate goes before others, then one with all
    // dependencies met, then one with any of them met, then one without any.
    ensures forall t :: t in r <==> t in candidates && forall u :: u in candidates ==>
              if u.essential != t.essential then t.essential
              else if (u.depends <= fullProvides) != (t.depends <= fullProvides) then t.depends <= fullProvides
              else if (u.depends * fullProvides != {}) != (t.depends * fullProvides != {})
              then t.depends * fullProvides != {}
              else u.depends == {} ==> t.depends == {}
    ensures |candidates| > 1 ==> ByNameAscending(r)
    ensures NoDup(candidates) ==> NoDup(r)
  {
    NarrowIsSound(candidates, fullProvides);
    hide StageKeeps, Keep, SortByName, ByNameAscending, NoDup;
    if |candidates| <= 1 {
      return candidates;
    }
    var narrowed := SortByName(candidates);
    for stage := 0 to STAGES
      invariant Narrowed(stage, narrowed, fullProvides) == Narrowed(0, SortByName(candidates), fullProvides)
    {
      var kept := Keep(stage, narrowed, fullProvides);
      if kept != [] {
        narrowed := kept;
      }
      if |narrowed| <= 1 {
        return narrowed;
      }
    }
    var noDeps := Keep(STAGES, narrowed, fullProvides);
    if noDeps != [] && |noDeps| < |narrowed| {
      narrowed := noDeps;
    }
    return narrowed;
  }

  function Narrow(candidates: seq<Target>, fullProvides: set<int>): seq<Target> {
    if |candidates| <= 1 then candidates else Narrowed(0, SortByName(candidates), fullProvides)
  }

  // What narrowing means: the candidates of greatest rank, where the filters are
  // the digits of the rank, the first filter the most significant one.

  function Digit(stage: nat, t: Target, fullProvides: set<int>): nat {
    if StageKeeps(stage, t, fullProvides) then 1 else 0
  }

  function RankFrom(stage: nat, t: Target, fullProvides: set<int>): nat {
    (if stage == 0 then 8 * Digit(0, t, fullProvides) else 0) +
    (if stage <= 1 then 4 * Digit(1, t, fullProvides) else 0) +
    (if stage <= 2 then 2 * Digit(2, t, fullProvides) else 0) +
    Digit(3, t, fullProvides)
  }

  ghost function BestFrom(stage: nat, s: set<Target>, fullProvides: set<int>): set<Target> {
    set t | t in s && forall u :: u in s ==> RankFrom(stage, u, fullProvides) <= RankFrom(stage, t, fullProvides)
  }

  ghost function Best(s: set<Target>, fullProvides: set<int>): set<Target> {
    BestFrom(0, s, fullProvides)
  }

  /** A candidate kept by a filter outranks one that is not. */
  lemma KeptOutranks(stage: nat, t: Target, u: Target, fullProvides: set<int>)
    requires stage < STAGES
    ensures StageKeeps(stage, t, fullProvides) && !StageKeeps(stage, u, fullProvides) ==>
              RankFrom(stage, u, fullProvides) < RankFrom(stage, t, fullProvides)
    ensures (StageKeeps(stage, t, fullProvides) <==> StageKeeps(stage, u, fullProvides)) ==>
              (RankFrom(stage, u, fullProvides) <= RankFrom(stage, t, fullProvides)
               <==> RankFrom(stage + 1, u, fullProvides) <= RankFrom(stage + 1, t, fullProvides))
  {
  }

  lemma StageKeepsBest(stage: nat, s: seq<Target>, fullProvides: set<int>)
    requires stage < STAGES
    ensures BestFrom(stage, Elems(s), fullProvides) ==
            BestFrom(stage + 1, Elems(Stage(stage, s, fullProvides)), fullProvides)
  {
    hide RankFrom, StageKeeps;
    var kept := Keep(stage, s, fullProvides);
    forall t, u ensures StageKeeps(stage, t, fullProvides) && !StageKeeps(stage, u, fullProvides) ==>
              RankFrom(stage, u, fullProvides) < RankFrom(stage, t, fullProvides)
    {
      KeptOutranks(stage, t, u, fullProvides);
    }
    forall t, u ensures (StageKeeps(stage, t, fullProvides) <==> StageKeeps(stage, u, fullProvides)) ==>
              (RankFrom(stage, u, fullProvides) <= RankFrom(stage, t, fullProvides)
               <==> RankFrom(stage + 1, u, fullProvides) <= RankFrom(stage + 1, t, fullProvides))
    {
      KeptOutranks(stage, t, u, fullProvides);
    }
    if kept != [] {
      var k := kept[0];
      assert k in kept && k in Elems(s);
    } else {
      forall t | t in s ensures !StageKeeps(stage, t, fullProvides) {
        assert t !in kept;
      }
    }
  }

  lemma SmallIsBest(stage: nat, s: seq<Target>, fullProvides: set<int>)
    requires |s| <= 1
    ensures BestFrom(stage, Elems(s), fullProvides) == Elems(s)
  {
  }

  lemma {:induction false} NarrowedIsBest(stage: nat, s: seq<Target>, fullProvides: set<int>)
    requires stage <= STAGES
    ensures Elems(Narrowed(stage, s, fullProvides)) == BestFrom(stage, Elems(s), fullProvides)
    decreases STAGES - stage
  {
    if stage == STAGES {
      LastStageIsBest(s, fullProvides);
    } else {
      StageKeepsBest(stage, s, fullProvides);
      var n := Stage(stage, s, fullProvides);
      if |n| <= 1 {
        SmallIsBest(stage + 1, n, fullProvides);
      } else {
        NarrowedIsBest(stage + 1, n, fullProvides);
      }
    }
  }

  lemma LastStageIsBest(s: seq<Target>, fullProvides: set<int>)
    ensures Elems(Narrowed(STAGES, s, fullProvides)) == BestFrom(STAGES, Elems(s), fullProvides)
  {
    var noDeps := Keep(STAGES, s, fullProvides);
    if noDeps == [] {
      forall t | t in s ensures !StageKeeps(STAGES, t, fullProvides) {
        assert t !in noDeps;
      }
    } else {
      if |noDeps| == |s| {
        KeepAll(STAGES, s, fullProvides);
      }
      assert noDeps[0] in s && StageKeeps(STAGES, noDeps[0], fullProvides);
      assert noDeps[0] in Elems(s);
      assert BestFrom(STAGES, Elems(s), fullProvides) == Elems(noDeps);
    }
  }

  /** Narrowing keeps exactly the candidates of greatest rank. */
  lemma NarrowIsBest(candidates: seq<Target>, fullProvides: set<int>)
    ensures Elems(Narrow(candidates, fullProvides)) == Best(Elems(candidates), fullProvides)
  {
    if |candidates| <= 1 {
      SmallIsBest(0, candidates, fullProvides);
    } else {
      NarrowedIsBest(0, SortByName(candidates), fullProvides);
      SortByNameElems(candidates);
    }
  }

  /** Nothing in the fields of `u` puts it before `t`. */
  ghost predicate NotBefore(u: Target, t: Target, fullProvides: set<int>) {
    if u.essential != t.essential then t.essential
    else if (u.depends <= fullProvides) != (t.depends <= fullProvides) then t.depends <= fullProvides
    else if (u.depends * fullProvides != {}) != (t.depends * fullProvides != {}) then t.depends * fullProvides != {}
    else u.depends == {} ==> t.depends == {}
  }

  lemma RankOrdersFields(u: Target, t: Target, fullProvides: set<int>)
    ensures RankFrom(0, u, fullProvides) <= RankFrom(0, t, fullProvides) <==> NotBefore(u, t, fullProvides)
  {
  }

  /** Narrowing keeps exactly the candidates that no other goes before, by name. */
  lemma NarrowIsSound(candidates: seq<Target>, fullProvides: set<int>)
    ensures forall t :: t in Narrow(candidates, fullProvides) <==>
              t in candidates && forall u :: u in candidates ==> NotBefore(u, t, fullProvides)
    ensures |candidates| > 1 ==> ByNameAscending(Narrow(candidates, fullProvides))
    ensures NoDup(candidates) ==> NoDup(Narrow(candidates, fullProvides))
  {
    hide Narrow, RankFrom, NotBefore, ByNameAscending, NoDup;
    NarrowIsBest(candidates, fullProvides);
    forall t ensures t in Narrow(candidates, fullProvides) <==>
              t in candidates && forall u :: u in candidates ==> NotBefore(u, t, fullProvides)
    {
      assert t in Narrow(candidates, fullProvides) <==> t in Elems(Narrow(candidates, fullProvides));
      forall u ensures RankFrom(0, u, fullProvides) <= RankFrom(0, t, fullProvides) <==> NotBefore(u, t, fullProvides) {
        RankOrdersFields(u, t, fullProvides);
      }
    }
    NarrowAscending(candidates, fullProvides);
    if NoDup(candidates) {
      NarrowNoDup(candidates, fullProvides);
    }
  }

  /** The filter for candidates without dependencies never decides: candidates that the
      filters before it cannot tell apart have dependencies all alike, or none. */
  lemma LastFilterIdle(candidates: seq<Target>, fullProvides: set<int>)
    ensures forall t :: t in Narrow(candidates, fullProvides) <==> t in candidates && forall u :: u in candidates ==>
              if u.essential != t.essential then t.essential
              else if (u.depends <= fullProvides) != (t.depends <= fullProvides) then t.depends <= fullProvides
              else u.depends * fullProvides != {} ==> t.depends * fullProvides != {}
  {
    hide Narrow, ByNameAscending, NoDup;
    NarrowIsSound(candidates, fullProvides);
    forall t: Target | t.depends <= fullProvides ensures t.depends == {} <==> t.depends * fullProvides == {} {
      assert t.depends * fullProvides == t.depends;
    }
    forall t: Target | t.depends == {} ensures t.depends <= fullProvides && t.depends * fullProvides == {} {
    }
  }

  /** Narrowing never discards every candidate. */
  lemma NarrowNonEmpty(candidates: seq<Target>, fullProvides: set<int>)
    requires candidates != []
    ensures Narrow(candidates, fullProvides) != []
  {
  }

  lemma BestIdempotent(s: set<Target>, fullProvides: set<int>)
    ensures Best(Best(s, fullProvides), fullProvides) == Best(s, fullProvides)
  {
  }

  // Sorting by name

  predicate NameLeq(a: string, b: string) {
    if a == [] then true
    else if b == [] then false
    else if a[0] != b[0] then a[0] < b[0]
    else NameLeq(a[1..], b[1..])
  }

  lemma NameLeqTotal(a: string, b: string)
    ensures NameLeq(a, b) || NameLeq(b, a)
  {
  }

  lemma {:induction false} NameLeqAntisymmetric(a: string, b: string)
    requires NameLeq(a, b) && NameLeq(b, a)
    ensures a == b
  {
    if a != [] && b != [] {
      NameLeqAntisymmetric(a[1..], b[1..]);
      assert a == [a[0]] + a[1..] && b == [b[0]] + b[1..];
    }
  }

  lemma {:induction false} NameLeqTransitive(a: string, b: string, c: string)
    requires NameLeq(a, b) && NameLeq(b, c)
    ensures NameLeq(a, c)
  {
    if a != [] && b != [] && c != [] && a[0] == b[0] == c[0] {
      NameLeqTransitive(a[1..], b[1..], c[1..]);
    }
  }

  function InsertByName(s: seq<Target>, t: Target): (r: seq<Target>)
    ensures Elems(r) == Elems(s) + {t} && |r| == |s| + 1
  {
    if s == [] then [t]
    else
      var last := s[|s| - 1];
      assert Elems(s) == Elems(s[..|s| - 1]) + {last};
      if NameLeq(last.name, t.name) then
        ElemsAppend(s, t);
        s + [t]
      else
        ElemsAppend(InsertByName(s[..|s| - 1], t), last);
        InsertByName(s[..|s| - 1], t) + [last]
  }

  /** `sort_by(|a, b| a.name.cmp(&b.name))`, stable. */
  function SortByName(s: seq<Target>): seq<Target> {
    if s == [] then [] else InsertByName(SortByName(s[..|s| - 1]), s[|s| - 1])
  }

  lemma SortByNameUnfold(s: seq<Target>)
    ensures SortByName(s) == if s == [] then [] else InsertByName(SortByName(s[..|s| - 1]), s[|s| - 1])
  {
    hide InsertByName;
  }

  lemma {:induction false} SortByNameElems(s: seq<Target>)
    ensures Elems(SortByName(s)) == Elems(s)
    ensures |SortByName(s)| == |s|
  {
    hide SortByName, InsertByName, Elems;
    SortByNameUnfold(s);
    if s != [] {
      var front, last := s[..|s| - 1], s[|s| - 1];
      SortByNameElems(front);
      assert s == front + [last];
      ElemsAppend(front, last);
    }
  }

  ghost predicate ByNameAscending(s: seq<Target>) {
    forall i, j :: 0 <= i < j < |s| ==> NameLeq(s[i].name, s[j].name)
  }

  lemma {:induction false} InsertAscending(s: seq<Target>, t: Target)
    requires ByNameAscending(s)
    ensures ByNameAscending(InsertByName(s, t))
  {
    if s != [] {
      var front, last := s[..|s| - 1], s[|s| - 1];
      if NameLeq(last.name, t.name) {
        forall i | 0 <= i < |s| ensures NameLeq(s[i].name, t.name) {
          if i < |s| - 1 {
            NameLeqTransitive(s[i].name, last.name, t.name);
          }
        }
      } else {
        NameLeqTotal(last.name, t.name);
        InsertAscending(front, t);
        var r := InsertByName(front, t);
        forall i | 0 <= i < |r| ensures NameLeq(r[i].name, last.name) {
          assert r[i] in Elems(r);
          assert r[i] in Elems(front) || r[i] == t;
        }
      }
    }
  }

  lemma {:induction false} SortAscending(s: seq<Target>)
    ensures ByNameAscending(SortByName(s))
  {
    if s != [] {
      SortAscending(s[..|s| - 1]);
      InsertAscending(SortByName(s[..|s| - 1]), s[|s| - 1]);
    }
  }

  ghost predicate NamesDiffer(s: set<Target>) {
    forall t, u :: t in s && u in s && t.name == u.name ==> t == u
  }

  lemma LastIsGreatest(s: seq<Target>, t: Target)
    requires ByNameAscending(s) && t in s
    ensures NameLeq(t.name, s[|s| - 1].name)
  {
    var i :| 0 <= i < |s| && s[i] == t;
    NameLeqTotal(t.name, t.name);
  }

  lemma FrontElems(s: seq<Target>)
    requires s != [] && NoDup(s)
    ensures Elems(s[..|s| - 1]) == Elems(s) - {s[|s| - 1]} && NoDup(s[..|s| - 1])
  {
  }

  lemma {:induction false} AscendingUnique(s: seq<Target>, t: seq<Target>)
    requires ByNameAscending(s) && ByNameAscending(t) && Elems(s) == Elems(t) && NamesDiffer(Elems(s))
    requires NoDup(s) && NoDup(t)
    ensures s == t
  {
    NoDupCardinality(s);
    NoDupCardinality(t);
    if s != [] {
      var a, b := s[|s| - 1], t[|t| - 1];
      assert a in Elems(t) && b in Elems(s);
      LastIsGreatest(t, a);
      LastIsGreatest(s, b);
      NameLeqAntisymmetric(a.name, b.name);
      FrontElems(s);
      FrontElems(t);
      AscendingUnique(s[..|s| - 1], t[..|t| - 1]);
      assert s == s[..|s| - 1] + [a] && t == t[..|t| - 1] + [b];
    }
  }

  /** The order in which candidates are listed does not matter. */
  lemma NarrowPermutationInvariant(s: seq<Target>, t: seq<Target>, fullProvides: set<int>)
    requires multiset(s) == multiset(t) && NoDup(s) && NamesDiffer(Elems(s))
    ensures Narrow(s, fullProvides) == Narrow(t, fullProvides)
  {
    SameMultisetElems(s, t);
    SortByNameElems(s);
    SortByNameElems(t);
    SortAscending(s);
    SortAscending(t);
    SameSizeNoDup(s, SortByName(s));
    SameSizeNoDup(t, SortByName(t));
    AscendingUnique(SortByName(s), SortByName(t));
    if |s| == 1 {
      assert s[0] in Elems(t);
    }
  }

  lemma SameSizeNoDup(s: seq<Target>, t: seq<Target>)
    requires NoDup(s) && Elems(s) == Elems(t) && |s| == |t|
    ensures NoDup(t)
  {
    NoDupCardinality(s);
    forall i, j | 0 <= i < j < |t| ensures t[i] != t[j] {
      var u := t[..j] + t[j + 1..];
      ElemsAtMostLength(u);
      if t[i] == t[j] {
        DropRepeat(t, i, j);
      }
    }
  }

  lemma DropRepeat(t: seq<Target>, i: nat, j: nat)
    requires i < j < |t| && t[i] == t[j]
    ensures Elems(t[..j] + t[j + 1..]) == Elems(t)
  {
  }

  lemma {:induction false} KeepNoDup(stage: nat, s: seq<Target>, fullProvides: set<int>)
    requires NoDup(s)
    ensures NoDup(Keep(stage, s, fullProvides))
  {
    hide StageKeeps;
    if s != [] {
      FrontElems(s);
      KeepNoDup(stage, s[..|s| - 1], fullProvides);
      assert s[|s| - 1] !in Elems(s[..|s| - 1]);
      assert s[|s| - 1] !in Keep(stage, s[..|s| - 1], fullProvides);
    }
  }

  lemma {:induction false} KeepAscending(stage: nat, s: seq<Target>, fullProvides: set<int>)
    requires ByNameAscending(s)
    ensures ByNameAscending(Keep(stage, s, fullProvides))
  {
    hide StageKeeps, NameLeq;
    if s != [] {
      var front, last := s[..|s| - 1], s[|s| - 1];
      KeepAscending(stage, front, fullProvides);
      var kept := Keep(stage, front, fullProvides);
      forall i | 0 <= i < |kept| ensures NameLeq(kept[i].name, last.name) {
        assert kept[i] in front;
      }
    }
  }

  lemma {:induction false} NarrowedAscending(stage: nat, s: seq<Target>, fullProvides: set<int>)
    requires ByNameAscending(s)
    ensures ByNameAscending(Narrowed(stage, s, fullProvides))
    decreases STAGES - stage
  {
    hide Keep, ByNameAscending;
    KeepAscending(if stage >= STAGES then STAGES else stage, s, fullProvides);
    if stage < STAGES {
      NarrowedAscending(stage + 1, Stage(stage, s, fullProvides), fullProvides);
    }
  }

  lemma NarrowAscending(candidates: seq<Target>, fullProvides: set<int>)
    ensures |candidates| > 1 ==> ByNameAscending(Narrow(candidates, fullProvides))
  {
    hide Narrowed, ByNameAscending;
    SortAscending(candidates);
    NarrowedAscending(0, SortByName(candidates), fullProvides);
  }

  lemma NarrowNoDup(candidates: seq<Target>, fullProvides: set<int>)
    requires NoDup(candidates)
    ensures NoDup(Narrow(candidates, fullProvides))
  {
    hide Narrowed, NoDup;
    SortByNameElems(candidates);
    SameSizeNoDup(candidates, SortByName(candidates));
    NarrowedNoDup(0, SortByName(candidates), fullProvides);
  }

  lemma {:induction false} NarrowedNoDup(stage: nat, s: seq<Target>, fullProvides: set<int>)
    requires NoDup(s)
    ensures NoDup(Narrowed(stage, s, fullProvides))
    decreases STAGES - stage
  {
    hide Keep;
    KeepNoDup(if stage >= STAGES then STAGES else stage, s, fullProvides);
    if stage < STAGES {
      NarrowedNoDup(stage + 1, Stage(stage, s, fullProvides), fullProvides);
    }
  }

  /** A contest has one winner exactly when one candidate alone has the greatest
      rank; otherwise all those tied for it remain. */
  lemma ContestDecided(candidates: seq<Target>, fullProvides: set<int>, winner: Target)
    requires NoDup(candidates)
    ensures |Narrow(candidates, fullProvides)| == |Best(Elems(candidates), fullProvides)|
    ensures Narrow(candidates, fullProvides) == [winner] <==> Best(Elems(candidates), fullProvides) == {winner}
  {
    hide Narrowed, Best;
    NarrowNoDup(candidates, fullProvides);
    NarrowIsBest(candidates, fullProvides);
    var n := Narrow(candidates, fullProvides);
    NoDupCardinality(n);
    if Elems(n) == {winner} {
      assert n[0] in Elems(n);
    }
  }
}
