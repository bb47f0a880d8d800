/** src/fluent-concurrency/src/flow.rs and credit_pool.rs: credit-based flow control
    as a state machine over its atomic steps. Receivers are told apart only by the
    point they have reached inside `recv`, so they are counted. */
module CreditFlow {

  datatype Config = Config(initial: nat, moreAfter: nat, receivers: nat, senders: nat)

  /** Where a sender is: between calls of `send`, or in its retry loop. */
  datatype Pc =
    | Idle
    | Top                     // about to load the credit
    | Loaded(current: int)    // about to compare and exchange, or to give up
    | Queued                  // wants the lock on the bump channel
    | Holding                 // holds it and awaits a bump
    | Got                     // has read a bump and not yet added it

  datatype State = State(
    credit: int,
    bumps: nat,               // unread bumps, each worth `moreAfter`
    taken: nat,               // what the lock holder has read and not yet added
    counter: nat,
    outstanding: nat,         // items sent whose receiver has not counted them
    crossed: nat,               // receivers past the threshold, no reset since
    stale: nat,                 // receivers past the threshold before the last reset
    granting: nat,            // receivers that have reset and not yet sent a bump
    pcs: seq<Pc>,
    locked: bool)

  /** What `k` bumps are worth. */
  function Worth(m: nat, k: nat): nat {
    if k == 0 then 0 else Worth(m, k - 1) + m
  }

  ghost predicate Init(c: Config, s: State) {
    && s == State(c.initial, 0, 0, 0, 0, 0, 0, 0, s.pcs, false)
    && |s.pcs| == c.senders
    && forall i :: 0 <= i < |s.pcs| ==> s.pcs[i] == Idle
  }

  datatype Step =
    | Call(i: nat) | Load(i: nat) | Exchange(i: nat) | GiveUp(i: nat) | Acquire(i: nat) | Read(i: nat)
    | AddCredit(i: nat)
    | Increment | Reset | Grant

  ghost predicate Enabled(c: Config, s: State, step: Step) {
    match step
    case Call(i) => i < |s.pcs| && s.pcs[i].Idle?
    case Load(i) => i < |s.pcs| && s.pcs[i].Top?
    case Exchange(i) => i < |s.pcs| && s.pcs[i].Loaded? && s.pcs[i].current > 0
    case GiveUp(i) => i < |s.pcs| && s.pcs[i].Loaded? && s.pcs[i].current <= 0
    case Acquire(i) => i < |s.pcs| && s.pcs[i].Queued? && !s.locked
    case Read(i) => i < |s.pcs| && s.pcs[i].Holding? && s.bumps > 0
    case AddCredit(i) => i < |s.pcs| && s.pcs[i].Got?
    case Increment => s.outstanding > 0 && s.crossed + s.stale + s.granting < c.receivers
    case Reset => s.crossed + s.stale > 0
    case Grant => s.granting > 0
  }

  ghost function Do(c: Config, s: State, step: Step): State
    requires Enabled(c, s, step)
  {
    match step
    case Call(i) => s.(pcs := s.pcs[i := Top])
    case Load(i) => s.(pcs := s.pcs[i := Loaded(s.credit)])
    case Exchange(i) =>
      if s.credit == s.pcs[i].current
      then s.(credit := s.credit - 1, outstanding := s.outstanding + 1, pcs := s.pcs[i := Idle])
      else s.(pcs := s.pcs[i := Top])
    case GiveUp(i) => s.(pcs := s.pcs[i := Queued])
    case Acquire(i) => s.(locked := true, pcs := s.pcs[i := Holding])
    case Read(i) => s.(bumps := s.bumps - 1, taken := c.moreAfter, pcs := s.pcs[i := Got])
    case AddCredit(i) => s.(credit := s.credit + s.taken, taken := 0, locked := false, pcs := s.pcs[i := Top])
    case Increment =>
      s.(outstanding := s.outstanding - 1, counter := s.counter + 1,
         crossed := if s.counter + 1 >= c.moreAfter then s.crossed + 1 else s.crossed)
    case Reset => s.(counter := 0, crossed := 0, stale := s.stale + s.crossed - 1, granting := s.granting + 1)
    case Grant => s.(granting := s.granting - 1, bumps := s.bumps + 1)
  }

  ghost predicate Next(c: Config, s: State, s': State) {
    exists step :: Enabled(c, s, step) && s' == Do(c, s, step)
  }

  ghost predicate IsRun(c: Config, run: seq<State>) {
    && run != []
    && Init(c, run[0])
    && forall i :: 0 <= i < |run| - 1 ==> Next(c, run[i], run[i + 1])
  }

  ghost predicate Reachable(c: Config, s: State) {
    exists run :: IsRun(c, run) && run[|run| - 1] == s
  }

  // The lock and the bump in transit

  ghost predicate LockInv(c: Config, s: State) {
    && |s.pcs| == c.senders
    && (!s.locked ==> s.taken == 0 && forall i :: 0 <= i < |s.pcs| ==> !s.pcs[i].Holding? && !s.pcs[i].Got?)
    && (forall i, j :: 0 <= i < j < |s.pcs| ==>
          !((s.pcs[i].Holding? || s.pcs[i].Got?) && (s.pcs[j].Holding? || s.pcs[j].Got?)))
    && (forall i :: 0 <= i < |s.pcs| && s.pcs[i].Holding? ==> s.taken == 0)
    && s.credit >= 0
  }

  /** The counter passes the threshold only by receivers still to reset. */
  ghost predicate CounterInv(c: Config, s: State) {
    if s.crossed == 0 then s.counter <= c.moreAfter - 1 else s.counter == c.moreAfter - 1 + s.crossed
  }

  /** Credit, unread and promised bumps, counted and outstanding items, and one for
      each receiver that crossed the threshold before the last reset. */
  ghost function Total(c: Config, s: State): int {
    s.credit + Worth(c.moreAfter, s.bumps) + s.taken + s.counter + s.outstanding
    + Worth(c.moreAfter, s.granting) + s.stale
  }

  ghost predicate Inv(c: Config, s: State) {
    && LockInv(c, s)
    && (c.moreAfter >= 1 ==> CounterInv(c, s) && Total(c, s) >= c.initial)
    && s.crossed + s.stale + s.granting <= c.receivers
  }

  lemma InitInv(c: Config, s: State)
    requires Init(c, s)
    ensures Inv(c, s)
  {
  }

  lemma LockKept(c: Config, s: State, step: Step)
    requires LockInv(c, s) && Enabled(c, s, step)
    ensures LockInv(c, Do(c, s, step))
  {
  }

  /** No step lowers the total, however the receivers race. */
  lemma TotalNeverFalls(c: Config, s: State, step: Step)
    requires c.moreAfter >= 1 && LockInv(c, s) && CounterInv(c, s) && Enabled(c, s, step)
    ensures CounterInv(c, Do(c, s, step))
    ensures Total(c, Do(c, s, step)) >= Total(c, s)
    ensures Total(c, Do(c, s, step)) > Total(c, s) ==> step.Reset? && s.crossed == 0 && s.counter < c.moreAfter - 1
  {
  }

  lemma InvKept(c: Config, s: State, step: Step)
    requires Inv(c, s) && Enabled(c, s, step)
    ensures Inv(c, Do(c, s, step))
  {
    LockKept(c, s, step);
    if c.moreAfter >= 1 {
      TotalNeverFalls(c, s, step);
    }
  }

  /** The invariant holds in every run. */
  lemma ReachableInv(c: Config, s: State)
    requires Reachable(c, s)
    ensures Inv(c, s)
  {
    hide Inv;
    var run :| IsRun(c, run) && run[|run| - 1] == s;
    InitInv(c, run[0]);
    for i := 0 to |run| - 1
      invariant Inv(c, run[i])
    {
      assert Next(c, run[i], run[i + 1]);
      var step :| Enabled(c, run[i], step) && run[i + 1] == Do(c, run[i], step);
      InvKept(c, run[i], step);
    }
  }

  /** A send gets through exactly when the credit is what the sender loaded, however
      many steps lie between; otherwise nothing changes and it loads again. */
  lemma SendsIffUnchanged(c: Config, run: seq<State>, i: nat, j: nat, k: nat)
    requires IsRun(c, run) && j < k < |run| - 1
    requires Enabled(c, run[j], Load(i)) && run[j + 1] == Do(c, run[j], Load(i))
    requires forall l :: j < l <= k ==> |run[l].pcs| > i && run[l].pcs[i] == run[j + 1].pcs[i]
    requires Enabled(c, run[k], Exchange(i)) && run[k + 1] == Do(c, run[k], Exchange(i))
    ensures run[k].credit == run[j].credit ==>
              run[k + 1] == run[k].(credit := run[k].credit - 1, outstanding := run[k].outstanding + 1,
                                    pcs := run[k].pcs[i := Idle])
    ensures run[k].credit != run[j].credit ==> run[k + 1] == run[k].(pcs := run[k].pcs[i := Top])
  {
    assert run[k].pcs[i] == Loaded(run[j].credit);
  }

  // When outstanding work stays within the initial credit

  /** At most one receiver at a time, a threshold of at most one, or no more credit
      than one threshold. */
  predicate Bounding(c: Config) {
    c.receivers <= 1 || c.moreAfter <= 1 || c.initial <= c.moreAfter
  }

  ghost predicate ExactInv(c: Config, s: State) {
    && Inv(c, s)
    && (c.moreAfter == 0 ==> s.taken == 0 && s.credit + s.outstanding <= c.initial)
    && (c.moreAfter >= 1 ==> Total(c, s) == c.initial)
    && (c.moreAfter >= 2 ==> s.stale == 0)
  }

  lemma ExactKept(c: Config, s: State, step: Step)
    requires Bounding(c) && ExactInv(c, s) && Enabled(c, s, step)
    ensures ExactInv(c, Do(c, s, step))
  {
    InvKept(c, s, step);
    if c.moreAfter >= 1 {
      TotalNeverFalls(c, s, step);
    }
  }

  /** With receivers taking turns, or under either other condition, nothing is
      lost or granted twice: the total is the initial credit in every run. */
  lemma TotalConserved(c: Config, s: State)
    requires Bounding(c) && Reachable(c, s)
    ensures ExactInv(c, s)
    ensures 0 <= s.credit && s.outstanding <= c.initial
  {
    hide Inv, Do;
    var run :| IsRun(c, run) && run[|run| - 1] == s;
    InitInv(c, run[0]);
    for i := 0 to |run| - 1
      invariant ExactInv(c, run[i])
    {
      assert Next(c, run[i], run[i + 1]);
      var step :| Enabled(c, run[i], step) && run[i + 1] == Do(c, run[i], step);
      ExactKept(c, run[i], step);
    }
    ReachableInv(c, s);
    CreditNotNegative(c, s);
  }

  lemma CreditNotNegative(c: Config, s: State)
    requires Inv(c, s)
    ensures s.credit >= 0
  {
  }

  // Building runs

  lemma ReachStep(c: Config, s: State, step: Step)
    requires Reachable(c, s) && Enabled(c, s, step)
    ensures Reachable(c, Do(c, s, step))
  {
    hide Enabled, Do;
    var run :| IsRun(c, run) && run[|run| - 1] == s;
    var run' := run + [Do(c, s, step)];
    forall i | 0 <= i < |run'| - 1 ensures Next(c, run'[i], run'[i + 1]) {
      if i < |run| - 1 {
        assert Next(c, run[i], run[i + 1]);
      }
    }
    assert IsRun(c, run');
  }

  function Start(c: Config): State {
    State(c.initial, 0, 0, 0, 0, 0, 0, 0, seq(c.senders, _ => Idle), false)
  }

  lemma ReachStart(c: Config)
    ensures Reachable(c, Start(c))
  {
    assert IsRun(c, [Start(c)]);
  }

  /** The first sender makes its first call. */
  lemma FirstCall(c: Config) returns (s: State)
    requires c.senders >= 1
    ensures Free(c, s) && s == Start(c).(pcs := Start(c).pcs[0 := Top])
  {
    ReachStart(c);
    ReachStep(c, Start(c), Call(0));
    s := Do(c, Start(c), Call(0));
  }

  /** The first sender is at the top of its loop and nobody holds the lock. */
  ghost predicate Free(c: Config, s: State) {
    Reachable(c, s) && s.pcs != [] && s.pcs[0] == Top && !s.locked && s.taken == 0
  }

  lemma {:induction false} SendMany(c: Config, s: State, k: nat)
    requires Free(c, s) && k <= s.credit
    ensures Free(c, s.(credit := s.credit - k, outstanding := s.outstanding + k))
  {
    hide Reachable;
    if k > 0 {
      SendMany(c, s, k - 1);
      var a := s.(credit := s.credit - (k - 1), outstanding := s.outstanding + (k - 1));
      ReachStep(c, a, Load(0));
      var b := Do(c, a, Load(0));
      ReachStep(c, b, Exchange(0));
      var d := Do(c, b, Exchange(0));
      ReachStep(c, d, Call(0));
      assert a.pcs[0 := Loaded(a.credit)][0 := Idle][0 := Top] == a.pcs;
      assert Do(c, d, Call(0)) == s.(credit := s.credit - k, outstanding := s.outstanding + k);
    }
  }

  lemma {:induction false} CountMany(c: Config, s: State, k: nat)
    requires Free(c, s) && k <= s.outstanding && s.counter + k < c.moreAfter
    requires s.crossed + s.stale + s.granting < c.receivers
    ensures Free(c, s.(outstanding := s.outstanding - k, counter := s.counter + k))
  {
    hide Reachable;
    if k > 0 {
      CountMany(c, s, k - 1);
      ReachStep(c, s.(outstanding := s.outstanding - (k - 1), counter := s.counter + (k - 1)), Increment);
    }
  }

  /** A sender without credit waits for the lock and the next bump. */
  lemma WaitForBump(c: Config, s: State)
    requires Free(c, s) && s.credit == 0
    ensures Reachable(c, s.(locked := true, pcs := s.pcs[0 := Holding]))
  {
    hide Reachable;
    var a := Do(c, s, Load(0));
    ReachStep(c, s, Load(0));
    var b := Do(c, a, GiveUp(0));
    ReachStep(c, a, GiveUp(0));
    ReachStep(c, b, Acquire(0));
    assert s.pcs[0 := Loaded(0)][0 := Queued][0 := Holding] == s.pcs[0 := Holding];
  }

  lemma TakeBump(c: Config, s: State)
    requires Free(c, s) && s.credit == 0 && s.bumps > 0
    ensures Free(c, s.(credit := c.moreAfter, bumps := s.bumps - 1))
  {
    hide Reachable;
    WaitForBump(c, s);
    var a := s.(locked := true, pcs := s.pcs[0 := Holding]);
    ReachStep(c, a, Read(0));
    var b := Do(c, a, Read(0));
    ReachStep(c, b, AddCredit(0));
    assert s.pcs[0 := Holding][0 := Got][0 := Top] == s.pcs;
  }

  lemma FreeStep(c: Config, s: State, step: Step)
    requires Free(c, s) && Enabled(c, s, step) && (step.Increment? || step.Reset? || step.Grant?)
    ensures Free(c, Do(c, s, step))
  {
    ReachStep(c, s, step);
  }

  /** Two receivers crossing the threshold together grant twice the threshold. */
  lemma RaceGrantsTwice(c: Config) returns (s: State)
    requires !Bounding(c) && c.senders >= 1
    ensures Free(c, s) && s.credit == 0 && s.bumps == 2 && s.outstanding == c.initial - c.moreAfter - 1
  {
    hide Reachable;
    var m := c.moreAfter;
    s := FirstCall(c);
    SendMany(c, s, c.initial);
    s := s.(credit := 0, outstanding := c.initial);
    CountMany(c, s, m - 1);
    s := s.(outstanding := s.outstanding - (m - 1), counter := m - 1);
    FreeStep(c, s, Increment);
    s := Do(c, s, Increment);
    FreeStep(c, s, Increment);
    s := Do(c, s, Increment);
    FreeStep(c, s, Reset);
    s := Do(c, s, Reset);
    FreeStep(c, s, Grant);
    s := Do(c, s, Grant);
    FreeStep(c, s, Reset);
    s := Do(c, s, Reset);
    FreeStep(c, s, Grant);
    s := Do(c, s, Grant);
  }

  lemma RaceExceedsInitial(c: Config) returns (s: State)
    requires !Bounding(c) && c.senders >= 1
    ensures Reachable(c, s) && s.outstanding > c.initial
  {
    hide Reachable;
    var m := c.moreAfter;
    s := RaceGrantsTwice(c);
    TakeBump(c, s);
    s := s.(credit := m, bumps := 1);
    SendMany(c, s, m);
    s := s.(credit := 0, outstanding := s.outstanding + m);
    TakeBump(c, s);
    s := s.(credit := m, bumps := 0);
    SendMany(c, s, m);
    s := s.(credit := 0, outstanding := s.outstanding + m);
  }

  /** Outstanding work stays within the initial credit in every run exactly under
      the bounding condition. */
  lemma OutstandingBoundedIff(c: Config)
    requires c.senders >= 1
    ensures (forall s :: Reachable(c, s) ==> s.outstanding <= c.initial) <==> Bounding(c)
  {
    if Bounding(c) {
      forall s | Reachable(c, s) ensures s.outstanding <= c.initial {
        TotalConserved(c, s);
      }
    } else {
      var s := RaceExceedsInitial(c);
    }
  }

  // When a sender waits for nothing

  /** Nothing is under way that could send a bump. */
  ghost predicate NothingInFlight(s: State) {
    s.bumps == 0 && s.outstanding == 0 && s.crossed == s.stale == s.granting == 0
  }

  /** Some sender awaits a bump while nothing is in flight. */
  ghost predicate AwaitsNothing(s: State) {
    NothingInFlight(s) && exists i :: 0 <= i < |s.pcs| && s.pcs[i].Holding?
  }

  /** And no other sender is about to send: the wait lasts until there is a new call. */
  ghost predicate Stuck(s: State) {
    AwaitsNothing(s) && forall i :: 0 <= i < |s.pcs| ==> s.pcs[i].Idle? || Poised(s.pcs[i])
  }

  /** Has seen no credit and is on the way to a bump. */
  predicate Poised(p: Pc) {
    (p.Loaded? && p.current <= 0) || p.Queued? || p.Holding? || p.Got?
  }

  /** What a sender may have added to the credit since a poised sender saw none: one
      bump, of which a finished call has spent at least one. */
  function Share(m: nat, p: Pc): nat
    requires m >= 1
  {
    if Poised(p) then 0 else if p.Idle? then m - 1 else m
  }

  function Shares(m: nat, pcs: seq<Pc>): nat
    requires m >= 1
  {
    if pcs == [] then 0 else Shares(m, pcs[..|pcs| - 1]) + Share(m, pcs[|pcs| - 1])
  }

  lemma {:induction false} SharesUpdate(m: nat, pcs: seq<Pc>, i: nat, p: Pc)
    requires m >= 1 && i < |pcs|
    ensures Shares(m, pcs[i := p]) == Shares(m, pcs) - Share(m, pcs[i]) + Share(m, p)
  {
    hide Share;
    var n := |pcs| - 1;
    if i == n {
      assert pcs[i := p][..n] == pcs[..n];
    } else {
      assert pcs[i := p][..n] == pcs[..n][i := p];
      SharesUpdate(m, pcs[..n], i, p);
    }
  }

  lemma {:induction false} SharesBound(m: nat, pcs: seq<Pc>, most: nat)
    requires m >= 1 && forall i :: 0 <= i < |pcs| ==> Share(m, pcs[i]) <= most
    ensures Shares(m, pcs) <= Worth(most, |pcs|)
  {
    hide Share;
    if pcs != [] {
      SharesBound(m, pcs[..|pcs| - 1], most);
    }
  }

  /** One of them has no share. */
  lemma {:induction false} SharesBoundBut(m: nat, pcs: seq<Pc>, most: nat, h: nat)
    requires m >= 1 && h < |pcs| && Share(m, pcs[h]) == 0 && forall i :: 0 <= i < |pcs| ==> Share(m, pcs[i]) <= most
    ensures Shares(m, pcs) <= Worth(most, |pcs| - 1)
  {
    hide Share;
    var n := |pcs| - 1;
    if h == n {
      SharesBound(m, pcs[..n], most);
    } else {
      SharesBoundBut(m, pcs[..n], most, h);
    }
  }

  /** While a sender acts on an empty credit, the credit is what others have added
      since. */
  ghost predicate ShareInv(c: Config, s: State)
    requires c.moreAfter >= 1
  {
    && s.taken <= c.moreAfter
    && forall i :: 0 <= i < |s.pcs| && Poised(s.pcs[i]) ==> s.credit <= Shares(c.moreAfter, s.pcs)
  }

  lemma ShareInvKept(c: Config, s: State, step: Step)
    requires c.moreAfter >= 1 && LockInv(c, s) && ShareInv(c, s) && Enabled(c, s, step)
    ensures ShareInv(c, Do(c, s, step))
  {
    hide Shares;
    var t := Do(c, s, step);
    if !step.Increment? && !step.Reset? && !step.Grant? {
      assert t.pcs == s.pcs[step.i := t.pcs[step.i]];
      SharesUpdate(c.moreAfter, s.pcs, step.i, t.pcs[step.i]);
    }
  }

  lemma ReachableShareInv(c: Config, s: State)
    requires c.moreAfter >= 1 && Reachable(c, s)
    ensures ShareInv(c, s)
  {
    hide Inv, ShareInv, Do, Enabled;
    var run :| IsRun(c, run) && run[|run| - 1] == s;
    InitInv(c, run[0]);
    InitShareInv(c, run[0]);
    for i := 0 to |run| - 1
      invariant Inv(c, run[i]) && ShareInv(c, run[i])
    {
      assert Next(c, run[i], run[i + 1]);
      var step :| Enabled(c, run[i], step) && run[i + 1] == Do(c, run[i], step);
      InvKept(c, run[i], step);
      LockOf(c, run[i]);
      ShareInvKept(c, run[i], step);
    }
  }

  lemma InitShareInv(c: Config, s: State)
    requires c.moreAfter >= 1 && Init(c, s)
    ensures ShareInv(c, s)
  {
  }

  lemma LockOf(c: Config, s: State)
    requires Inv(c, s)
    ensures LockInv(c, s)
  {
  }

  lemma WorthIs(m: nat, k: nat)
    ensures Worth(m, k) == k * m
  {
  }

  lemma WorthMore(m: nat, k: nat, l: nat)
    requires k <= l
    ensures Worth(m, k) <= Worth(m, l)
  {
  }

  /** What is then missing from the initial credit is short of one threshold. */
  lemma CreditLeft(c: Config, s: State)
    requires c.moreAfter >= 1 && Inv(c, s) && AwaitsNothing(s)
    ensures s.credit >= c.initial - (c.moreAfter - 1)
  {
  }

  lemma NeverAwaitsNothing(c: Config, s: State)
    requires 1 <= c.moreAfter && c.senders * c.moreAfter <= c.initial && Reachable(c, s)
    ensures !AwaitsNothing(s)
  {
    hide Reachable;
    ReachableInv(c, s);
    ReachableShareInv(c, s);
    if AwaitsNothing(s) {
      CreditLeft(c, s);
      var h: nat :| h < |s.pcs| && s.pcs[h].Holding?;
      SharesBoundBut(c.moreAfter, s.pcs, c.moreAfter, h);
      WorthIs(c.moreAfter, c.senders);
    }
  }

  lemma NeverStuck(c: Config, s: State)
    requires 1 <= c.moreAfter && c.senders * (c.moreAfter - 1) < c.initial && Reachable(c, s)
    ensures !Stuck(s)
  {
    hide Reachable;
    ReachableInv(c, s);
    ReachableShareInv(c, s);
    if Stuck(s) {
      CreditLeft(c, s);
      var h: nat :| h < |s.pcs| && s.pcs[h].Holding?;
      SharesBoundBut(c.moreAfter, s.pcs, c.moreAfter - 1, h);
      WorthIs(c.moreAfter - 1, c.senders);
    }
  }

  // Runs that get there

  /** One item through an idle receiver when every count crosses the threshold. */
  lemma {:induction false} DrainAll(c: Config, s: State, k: nat)
    requires c.moreAfter == 0 && c.receivers >= 1 && Free(c, s) && k <= s.outstanding
    requires s.counter == 0 && s.crossed == s.stale == s.granting == 0
    ensures Free(c, s.(outstanding := s.outstanding - k, bumps := s.bumps + k))
  {
    hide Reachable;
    if k > 0 {
      DrainAll(c, s, k - 1);
      var a := s.(outstanding := s.outstanding - (k - 1), bumps := s.bumps + (k - 1));
      FreeStep(c, a, Increment);
      a := Do(c, a, Increment);
      FreeStep(c, a, Reset);
      a := Do(c, a, Reset);
      FreeStep(c, a, Grant);
    }
  }

  lemma {:induction false} ReadWorthless(c: Config, s: State, k: nat)
    requires c.moreAfter == 0 && Free(c, s) && s.credit == 0 && k <= s.bumps
    ensures Free(c, s.(bumps := s.bumps - k))
  {
    hide Reachable;
    if k > 0 {
      ReadWorthless(c, s, k - 1);
      TakeBump(c, s.(bumps := s.bumps - (k - 1)));
    }
  }

  /** With a threshold of zero, bumps are worth nothing. */
  lemma ZeroGetsStuck(c: Config) returns (s: State)
    requires c.senders >= 1 && c.receivers >= 1 && c.moreAfter == 0
    ensures Reachable(c, s) && Stuck(s)
  {
    hide Reachable;
    s := FirstCall(c);
    SendMany(c, s, c.initial);
    s := s.(credit := 0, outstanding := c.initial);
    DrainAll(c, s, c.initial);
    s := s.(outstanding := 0, bumps := c.initial);
    ReadWorthless(c, s, c.initial);
    s := s.(bumps := 0);
    WaitForBump(c, s);
    s := s.(locked := true, pcs := s.pcs[0 := Holding]);
    assert s.pcs[0].Holding?;
  }

  /** No receiver is inside `recv` and nobody holds the lock. */
  ghost predicate Calm(c: Config, s: State) {
    && Reachable(c, s) && c.receivers >= 1 && 0 <= s.counter < c.moreAfter && |s.pcs| == c.senders
    && s.crossed == s.stale == s.granting == 0 && !s.locked && s.taken == 0
  }

  lemma CountOne(c: Config, s: State) returns (t: State)
    requires Calm(c, s) && s.outstanding > 0
    ensures Calm(c, t) && t.outstanding == s.outstanding - 1 && t.credit == s.credit && t.pcs == s.pcs
    ensures Worth(c.moreAfter, t.bumps) + t.counter == Worth(c.moreAfter, s.bumps) + s.counter + 1
  {
    hide Reachable;
    ReachStep(c, s, Increment);
    t := Do(c, s, Increment);
    if t.counter == c.moreAfter {
      ReachStep(c, t, Reset);
      t := Do(c, t, Reset);
      ReachStep(c, t, Grant);
      t := Do(c, t, Grant);
    }
  }

  lemma CountAll(c: Config, s: State) returns (t: State)
    requires Calm(c, s)
    ensures Calm(c, t) && t.outstanding == 0 && t.credit == s.credit && t.pcs == s.pcs
    ensures Worth(c.moreAfter, t.bumps) + t.counter == Worth(c.moreAfter, s.bumps) + s.counter + s.outstanding
  {
    hide Calm, Worth;
    t := s;
    while t.outstanding > 0
      invariant Calm(c, t) && t.credit == s.credit && t.pcs == s.pcs
      invariant Worth(c.moreAfter, t.bumps) + t.counter + t.outstanding ==
                Worth(c.moreAfter, s.bumps) + s.counter + s.outstanding
    {
      t := CountOne(c, t);
    }
  }

  /** A sender that saw no credit adds a bump to whatever there is by now. */
  lemma AddBump(c: Config, s: State, i: nat) returns (t: State)
    requires Calm(c, s) && i < |s.pcs| && s.pcs[i] == Loaded(0) && s.bumps > 0
    ensures Calm(c, t) && t.credit == s.credit + c.moreAfter && t.bumps == s.bumps - 1 && t.counter == s.counter
    ensures t.outstanding == s.outstanding && t.pcs == s.pcs[i := Top]
  {
    hide Reachable;
    ReachStep(c, s, GiveUp(i));
    t := Do(c, s, GiveUp(i));
    ReachStep(c, t, Acquire(i));
    t := Do(c, t, Acquire(i));
    ReachStep(c, t, Read(i));
    t := Do(c, t, Read(i));
    ReachStep(c, t, AddCredit(i));
    t := Do(c, t, AddCredit(i));
  }

  lemma SendOne(c: Config, s: State, i: nat) returns (t: State)
    requires Calm(c, s) && i < |s.pcs| && s.pcs[i] == Top && s.credit > 0
    ensures Calm(c, t) && t.credit == s.credit - 1 && t.bumps == s.bumps && t.counter == s.counter
    ensures t.outstanding == s.outstanding + 1 && t.pcs == s.pcs[i := Idle]
  {
    hide Reachable;
    ReachStep(c, s, Load(i));
    t := Do(c, s, Load(i));
    ReachStep(c, t, Exchange(i));
    t := Do(c, t, Exchange(i));
  }

  lemma WaitOn(c: Config, s: State, i: nat) returns (t: State)
    requires Calm(c, s) && i < |s.pcs| && s.pcs[i] == Loaded(0)
    ensures Reachable(c, t) && t == s.(locked := true, pcs := s.pcs[i := Holding])
  {
    hide Reachable;
    ReachStep(c, s, GiveUp(i));
    t := Do(c, s, GiveUp(i));
    ReachStep(c, t, Acquire(i));
    t := Do(c, t, Acquire(i));
  }

  /** The first `j` senders are at `done`, the others have seen no credit. */
  ghost predicate Split(s: State, j: nat, done: Pc) {
    && j <= |s.pcs|
    && (forall i :: 0 <= i < j ==> s.pcs[i] == done)
    && (forall i :: j <= i < |s.pcs| ==> s.pcs[i] == Loaded(0))
  }

  /** The credit is used up, every sender has seen that, and all items are counted. */
  lemma AllSeeNone(c: Config, done: Pc) returns (s: State)
    requires c.senders >= 1 && c.receivers >= 1 && c.moreAfter >= 1
    ensures Calm(c, s) && s.credit == 0 && s.outstanding == 0 && Split(s, 0, done)
    ensures Worth(c.moreAfter, s.bumps) + s.counter == c.initial
  {
    hide Reachable;
    s := FirstCall(c);
    SendMany(c, s, c.initial);
    s := s.(credit := 0, outstanding := c.initial);
    ReachStep(c, s, Load(0));
    s := Do(c, s, Load(0));
    for i := 1 to c.senders
      invariant Calm(c, s) && s.credit == 0 && s.outstanding == c.initial && s.bumps == s.counter == 0
      invariant forall k :: 0 <= k < i ==> s.pcs[k] == Loaded(0)
      invariant forall k :: i <= k < c.senders ==> s.pcs[k] == Idle
    {
      ReachStep(c, s, Call(i));
      s := Do(c, s, Call(i));
      ReachStep(c, s, Load(i));
      s := Do(c, s, Load(i));
    }
    s := CountAll(c, s);
  }

  /** One sender after the other adds a bump, until none is left and the next waits. */
  lemma GetsToAwaitNothing(c: Config) returns (s: State)
    requires c.senders >= 1 && c.receivers >= 1 && c.moreAfter >= 1 && c.senders * c.moreAfter > c.initial
    ensures Reachable(c, s) && AwaitsNothing(s)
  {
    hide Calm;
    var m := c.moreAfter;
    s := AllSeeNone(c, Top);
    WorthIs(m, c.senders);
    var j := 0;
    CalmSize(c, s);
    while s.bumps > 0
      invariant Calm(c, s) && |s.pcs| == c.senders && s.outstanding == 0 && j < c.senders && Split(s, j, Top)
      invariant Worth(m, j) + Worth(m, s.bumps) + s.counter == c.initial
      decreases s.bumps
    {
      MoreSenders(m, j, c.senders, c.initial);
      s := AddBump(c, s, j);
      j := j + 1;
    }
    CalmQuiet(c, s);
    s := WaitOn(c, s, j);
    assert s.pcs[j].Holding?;
  }

  lemma MoreSenders(m: nat, j: nat, senders: nat, used: nat)
    requires Worth(m, j + 1) <= used < Worth(m, senders)
    ensures j + 1 < senders
  {
    if senders <= j + 1 {
      WorthMore(m, senders, j + 1);
    }
  }

  lemma CalmSize(c: Config, s: State)
    requires Calm(c, s)
    ensures |s.pcs| == c.senders
  {
  }

  lemma CalmQuiet(c: Config, s: State)
    requires Calm(c, s)
    ensures s.crossed == s.stale == s.granting == 0 && s.counter < c.moreAfter && |s.pcs| == c.senders
  {
  }

  /** The same with every call finished: each sender that adds a bump sends its item,
      which is counted. */
  lemma FinishesCalls(c: Config) returns (s: State)
    requires c.senders >= 1 && c.receivers >= 1 && c.moreAfter >= 1 && c.senders * (c.moreAfter - 1) >= c.initial
    ensures Reachable(c, s) && Stuck(s)
  {
    hide Calm;
    var m := c.moreAfter;
    s := AllSeeNone(c, Idle);
    WorthIs(m - 1, c.senders);
    var j := 0;
    CalmSize(c, s);
    while s.bumps > 0
      invariant Calm(c, s) && |s.pcs| == c.senders && s.outstanding == 0 && j < c.senders && Split(s, j, Idle)
      invariant s.credit == Worth(m - 1, j)
      invariant Worth(m - 1, j) + Worth(m, s.bumps) + s.counter == c.initial
      decreases c.senders - j
    {
      assert Worth(m, s.bumps) >= m;
      MoreSenders(m - 1, j, c.senders, c.initial - 1);
      s := AddBump(c, s, j);
      s := SendOne(c, s, j);
      s := CountOne(c, s);
      j := j + 1;
    }
    CalmQuiet(c, s);
    s := WaitOn(c, s, j);
    assert s.pcs[j].Holding?;
  }

  lemma GetsStuck(c: Config) returns (s: State)
    requires c.senders >= 1 && c.receivers >= 1
    requires c.moreAfter == 0 || c.senders * (c.moreAfter - 1) >= c.initial
    ensures Reachable(c, s) && Stuck(s)
  {
    if c.moreAfter == 0 {
      s := ZeroGetsStuck(c);
    } else {
      s := FinishesCalls(c);
    }
  }

  /** No sender is ever stuck with nothing in flight, exactly when the threshold is
      positive and all but one unit of it, for every sender, stays below the initial
      credit. */
  lemma NeverStuckIff(c: Config)
    requires c.senders >= 1 && c.receivers >= 1
    ensures (forall s :: Reachable(c, s) ==> !Stuck(s))
            <==> 1 <= c.moreAfter && c.senders * (c.moreAfter - 1) < c.initial
  {
    hide Reachable, Stuck;
    if 1 <= c.moreAfter && c.senders * (c.moreAfter - 1) < c.initial {
      forall s | Reachable(c, s) ensures !Stuck(s) {
        NeverStuck(c, s);
      }
    } else {
      var s := GetsStuck(c);
    }
  }

  /** No sender ever awaits a bump while nothing is in flight, not even for a moment,
      exactly when the initial credit covers the threshold for every sender. */
  lemma NeverAwaitsNothingIff(c: Config)
    requires c.senders >= 1 && c.receivers >= 1
    ensures (forall s :: Reachable(c, s) ==> !AwaitsNothing(s))
            <==> 1 <= c.moreAfter && c.senders * c.moreAfter <= c.initial
  {
    hide Reachable, AwaitsNothing;
    if 1 <= c.moreAfter && c.senders * c.moreAfter <= c.initial {
      forall s | Reachable(c, s) ensures !AwaitsNothing(s) {
        NeverAwaitsNothing(c, s);
      }
    } else if c.moreAfter == 0 {
      var s := ZeroGetsStuck(c);
      StuckAwaits(s);
    } else {
      var s := GetsToAwaitNothing(c);
    }
  }

  lemma StuckAwaits(s: State)
    requires Stuck(s)
    ensures AwaitsNothing(s)
  {
  }

  // The credit-gated pool

  const WORKER_CAP: nat := 2

  /** `submit` holds the pool lock while it sends, so there is one sender. */
  function PoolConfig(creditLimit: nat): Config {
    Config(if creditLimit < 1 then 1 else creditLimit,
           if creditLimit / 2 < 1 then 1 else creditLimit / 2,
           WORKER_CAP, 1)
  }

  /** The pool's submitters are never stuck on an idle pool; its jobs in flight stay
      within the credit limit exactly for limits up to three. */
  lemma PoolGuarantees(creditLimit: nat)
    ensures forall s :: Reachable(PoolConfig(creditLimit), s) ==> !AwaitsNothing(s) && !Stuck(s)
    ensures (forall s :: Reachable(PoolConfig(creditLimit), s) ==>
               s.outstanding <= if creditLimit == 0 then 1 else creditLimit)
       <==> creditLimit <= 3
    ensures forall s :: Reachable(PoolConfig(creditLimit), s) ==> |s.pcs| == 1 && s.crossed + s.stale + s.granting <= 2
  {
    hide Reachable;
    forall s | Reachable(PoolConfig(creditLimit), s) ensures |s.pcs| == 1 && s.crossed + s.stale + s.granting <= 2 {
      ReachableInv(PoolConfig(creditLimit), s);
    }
    NeverStuckIff(PoolConfig(creditLimit));
    NeverAwaitsNothingIff(PoolConfig(creditLimit));
    OutstandingBoundedIff(PoolConfig(creditLimit));
  }
}
