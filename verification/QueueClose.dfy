/** src/fluent-concurrency/src/pool.rs, `Queue.close`: exactly which queues can strand
    a waiting producer, and which can keep an item that nobody will take. */
module QueueClosing {
  import opened WaitQueue

  ghost predicate Terminal(c: Config, s: State) {
    forall step :: !Enabled(c, s, step)
  }

  ghost predicate SomeoneWaits(c: Config) {
    exists i :: 0 <= i < |c.producers| && c.producers[i].waits
  }

  // With room for everybody nobody waits

  predicate Added(p: Producer) {
    p.place.Pushed? || p.place.Accepted?
  }

  /** How many producers have added their item. */
  function AddedCount(ps: seq<Producer>): nat {
    if ps == [] then 0 else AddedCount(ps[..|ps| - 1]) + if Added(ps[|ps| - 1]) then 1 else 0
  }

  lemma {:induction false} AddedSame(ps: seq<Producer>, qs: seq<Producer>)
    requires |ps| == |qs| && forall i :: 0 <= i < |ps| ==> (Added(ps[i]) <==> Added(qs[i]))
    ensures AddedCount(ps) == AddedCount(qs)
  {
    if ps != [] {
      AddedSame(ps[..|ps| - 1], qs[..|qs| - 1]);
    }
  }

  lemma {:induction false} AddedOneMore(ps: seq<Producer>, i: nat, p: Producer)
    requires i < |ps| && !Added(ps[i]) && Added(p)
    ensures AddedCount(ps[i := p]) == AddedCount(ps) + 1
  {
    var qs := ps[i := p];
    var n := |ps| - 1;
    if i == n {
      assert qs[..n] == ps[..n];
    } else {
      assert qs[..n] == ps[..n][i := p];
      AddedOneMore(ps[..n], i, p);
    }
  }

  lemma {:induction false} AddedFewer(ps: seq<Producer>, i: nat)
    requires i < |ps| && !Added(ps[i])
    ensures AddedCount(ps) < |ps|
  {
    var n := |ps| - 1;
    if i < n {
      AddedFewer(ps[..n], i);
    } else {
      AddedAtMost(ps[..n]);
    }
  }

  lemma {:induction false} AddedAtMost(ps: seq<Producer>)
    ensures AddedCount(ps) <= |ps|
  {
    if ps != [] {
      AddedAtMost(ps[..|ps| - 1]);
    }
  }

  ghost predicate SameKinds(c: Config, s: State) {
    && |s.producers| == |c.producers|
    && forall i :: 0 <= i < |s.producers| ==> s.producers[i].waits == c.producers[i].waits
  }

  ghost predicate NobodyFull(s: State) {
    forall i :: 0 <= i < |s.producers| ==> !s.producers[i].place.Full? && !s.producers[i].place.Asleep?
  }

  ghost predicate Counted(s: State) {
    |s.accepted| == AddedCount(s.producers)
  }

  ghost predicate Roomy(c: Config, s: State) {
    SameKinds(c, s) && Counted(s) && (|c.producers| <= c.capacity ==> NobodyFull(s))
  }

  lemma RoomyInitial(c: Config)
    requires ValidConfig(c)
    ensures Roomy(c, Initial(c))
  {
    hide AddedCount;
    NoneAdded(c.producers);
  }

  lemma {:induction false} NoneAdded(ps: seq<Producer>)
    requires forall i :: 0 <= i < |ps| ==> !Added(ps[i])
    ensures AddedCount(ps) == 0
  {
    if ps != [] {
      NoneAdded(ps[..|ps| - 1]);
    }
  }

  lemma ConsumerKeepsRoomy(c: Config, s: State, step: ConsumerStep)
    requires Roomy(c, s) && ConsumerEnabled(s, step)
    ensures Roomy(c, DoConsumer(s, step))
  {
    hide DoConsumer, ConsumerEnabled, AddedCount;
    ConsumerStepPlaces(s, step);
    ConsumerAcceptsNothing(s, step);
    AddedSame(s.producers, DoConsumer(s, step).producers);
  }

  lemma ConsumerAcceptsNothing(s: State, step: ConsumerStep)
    requires ConsumerEnabled(s, step)
    ensures DoConsumer(s, step).accepted == s.accepted
  {
  }

  lemma CloseKeepsRoomy(c: Config, s: State)
    requires Roomy(c, s)
    ensures Roomy(c, DoClose(s))
  {
    hide AddedCount;
    AddedSame(s.producers, DoClose(s).producers);
  }

  /** A producer that has not added its item finds room if there is room for all. */
  lemma AlwaysRoom(c: Config, s: State, i: nat)
    requires ContentInv(c, s) && Counted(s) && |s.producers| <= c.capacity && i < |s.producers|
    requires !Added(s.producers[i])
    ensures HasRoom(c, s)
  {
    AddedFewer(s.producers, i);
  }

  lemma ProducerKeepsRoomy(c: Config, s: State, i: nat, step: ProducerStep)
    requires Roomy(c, s) && ContentInv(c, s) && i < |s.producers| && ProducerEnabled(s, s.producers[i], step)
    ensures Roomy(c, Do(c, s, Produce(i, step)))
  {
    hide AddedCount, Do, NextPlace, ProducerEnabled, HasRoom, Added;
    ProducerStepPlaces(c, s, i, step);
    var t := Do(c, s, Produce(i, step));
    var p, q := s.producers[i], t.producers[i];
    assert t.producers == s.producers[i := q];
    if !Added(p) && |s.producers| <= c.capacity {
      AlwaysRoom(c, s, i);
    }
    ProducerAdds(c, s, i, step);
    if !Added(p) && Added(q) {
      AddedOneMore(s.producers, i, q);
    } else {
      AddedSame(s.producers, t.producers);
    }
  }

  /** A producer adds its item once, and is turned away only from a full queue. */
  lemma ProducerAdds(c: Config, s: State, i: nat, step: ProducerStep)
    requires i < |s.producers| && ProducerEnabled(s, s.producers[i], step)
    ensures var p, q := s.producers[i], s.producers[i].(place := NextPlace(c, s, s.producers[i], step));
            && |Do(c, s, Produce(i, step)).accepted| == |s.accepted| + (if !Added(p) && Added(q) then 1 else 0)
            && (Added(p) ==> Added(q))
            && (!p.place.Full? && (!Added(p) ==> HasRoom(c, s)) ==> !q.place.Full? && !q.place.Asleep?)
  {
  }

  lemma ReachableRoomy(c: Config, s: State)
    requires ValidConfig(c) && Reachable(c, s)
    ensures Roomy(c, s)
  {
    hide Inv, Do, Enabled, Roomy;
    var run :| IsRun(c, run) && run[|run| - 1] == s;
    InitInv(c);
    RoomyInitial(c);
    for i := 0 to |run| - 1
      invariant Inv(c, run[i]) && Roomy(c, run[i])
    {
      assert Next(c, run[i], run[i + 1]);
      var step :| Enabled(c, run[i], step) && run[i + 1] == Do(c, run[i], step);
      InvKept(c, run[i], step);
      StepKeepsRoomy(c, run[i], step);
    }
  }

  lemma StepKeepsRoomy(c: Config, s: State, step: Step)
    requires Inv(c, s) && Roomy(c, s) && Enabled(c, s, step)
    ensures Roomy(c, Do(c, s, step))
  {
    hide Roomy, DoConsumer, DoClose;
    match step {
      case Consume(what) => ConsumerKeepsRoomy(c, s, what);
      case Produce(i, what) => ProducerKeepsRoomy(c, s, i, what);
      case Close => CloseKeepsRoomy(c, s);
    }
  }

  /** Nobody sleeps where nobody waits, or where everybody has room. */
  lemma NobodySleeps(c: Config, s: State)
    requires ValidConfig(c) && Reachable(c, s) && (!SomeoneWaits(c) || |c.producers| <= c.capacity)
    ensures NobodyAsleep(s)
  {
    ReachableInv(c, s);
    ReachableRoomy(c, s);
    forall i | 0 <= i < |s.producers| ensures !s.producers[i].place.Asleep? {
      assert s.producers[i].waits == c.producers[i].waits;
    }
  }

  // A run that strands a producer, for every other configuration

  /** Closed and given up by the consumer, with no permit for a producer. */
  ghost predicate Abandoned(s: State) {
    s.closing == 3 && !s.locked && !s.spacePermit && s.spaceGen == 1 && s.consumer.Done?
  }

  /** An open empty queue before anything but looks at the flag has happened. */
  ghost predicate Untouched(s: State) {
    && s.items == [] && s.accepted == [] && s.closing == 0 && !s.locked && !s.itemPermit && !s.spacePermit
    && s.itemGen == 0 && s.spaceGen == 0 && s.consumer.Start? && NobodyAsleep(s)
  }

  lemma LookAtFlag(c: Config, s: State, i: nat) returns (t: State)
    requires Reachable(c, s) && Untouched(s) && i < |s.producers| && s.producers[i].place.Check?
    ensures Reachable(c, t) && Untouched(t) && t.producers == At(s, i, Unclosed)
  {
    hide Reachable;
    t := s.(producers := At(s, i, Unclosed));
    Go(c, s, Produce(i, ReadFlag), t);
  }

  lemma Abandon(c: Config, s: State) returns (t: State)
    requires Reachable(c, s) && Untouched(s)
    ensures Reachable(c, t) && Abandoned(t) && t.items == [] && t.accepted == [] && t.producers == s.producers
  {
    hide Reachable;
    t := s.(closing := 1);
    Go(c, s, Close, t);
    var u := t.(consumer := Created(0));
    Go(c, t, Consume(Create), u);
    t := u.(consumer := Done);
    Go(c, u, Consume(Take), t);
    u := t.(closing := 2, itemGen := 1);
    Go(c, t, Close, u);
    assert RouseAll(u.producers) == u.producers;
    t := u.(closing := 3, spaceGen := 1,
            raced := set i: nat | i < |u.producers| && u.producers[i].place.Unclosed?);
    Go(c, u, Close, t);
  }

  /** A producer that saw the queue open goes on to the lock. */
  lemma ReachLock(c: Config, s: State, i: nat) returns (t: State)
    requires Reachable(c, s) && Abandoned(s) && i < |s.producers| && s.producers[i].place.Unclosed?
    ensures Reachable(c, t) && Abandoned(t) && t.items == s.items
    ensures t.producers == At(s, i, if s.producers[i].waits then Waiting(1) else Unclosed)
  {
    hide Reachable;
    t := s;
    if s.producers[i].waits {
      t := s.(producers := At(s, i, Waiting(1)));
      Go(c, s, Produce(i, MakeFuture), t);
    }
  }

  lemma AddLate(c: Config, s: State, i: nat) returns (t: State)
    requires Reachable(c, s) && Abandoned(s) && HasRoom(c, s) && i < |s.producers| && s.producers[i].place.Unclosed?
    ensures Reachable(c, t) && Abandoned(t) && t.items == s.items + [s.producers[i].item]
    ensures t.producers == At(s, i, Accepted)
  {
    hide Reachable;
    t := ReachLock(c, s, i);
    var item := t.producers[i].item;
    var u := t.(producers := At(t, i, Pushed), items := t.items + [item], accepted := t.accepted + [item],
                locked := true);
    Go(c, t, Produce(i, Add), u);
    t := u.(producers := At(u, i, Accepted), itemPermit := true, locked := false);
    Go(c, u, Produce(i, NotifyItem), t);
  }

  lemma FallAsleep(c: Config, s: State, i: nat) returns (t: State)
    requires Reachable(c, s) && Abandoned(s) && !HasRoom(c, s)
    requires i < |s.producers| && s.producers[i].place.Unclosed? && s.producers[i].waits
    ensures Reachable(c, t) && Abandoned(t) && t.items == s.items && t.producers == At(s, i, Asleep)
  {
    hide Reachable;
    t := ReachLock(c, s, i);
    var u := t.(producers := At(t, i, Full(1)));
    Go(c, t, Produce(i, Add), u);
    t := u.(producers := At(u, i, Asleep));
    Go(c, u, Produce(i, AwaitSpace), t);
  }

  lemma BeRefused(c: Config, s: State, i: nat) returns (t: State)
    requires Reachable(c, s) && Abandoned(s) && i < |s.producers| && s.producers[i].place.Check?
    ensures Reachable(c, t) && Abandoned(t) && t.items == s.items && t.producers == At(s, i, Refused)
  {
    hide Reachable;
    t := s.(producers := At(s, i, Refused));
    Go(c, s, Produce(i, ReadFlag), t);
  }

  /** The first `capacity` producers other than the waiter `w` fill the queue. */
  predicate Filler(c: Config, w: nat, i: nat) {
    i != w && (if i < w then i else i - 1) < c.capacity
  }

  /** How many fillers come before `i`. */
  function FillersBefore(c: Config, w: nat, i: nat): nat {
    var others := if i <= w then i else i - 1;
    if others <= c.capacity then others else c.capacity
  }

  /** Fillers before `a` have seen the queue open and those before `b` are done;
      the waiter is at `p`; the others before `e` were refused. */
  function Scene(c: Config, w: nat, a: nat, b: nat, p: Place, e: nat): seq<Producer> {
    seq(|c.producers|, i requires 0 <= i < |c.producers| => c.producers[i].(place :=
      if i == w then p
      else if Filler(c, w, i) then (if i < b then Accepted else if i < a then Unclosed else Check)
      else if i < e then Refused else Check))
  }

  lemma SceneLook(c: Config, w: nat, a: nat, s: State)
    requires a < |c.producers| && s.producers == Scene(c, w, a, 0, Unclosed, 0)
    ensures Filler(c, w, a) ==> At(s, a, Unclosed) == Scene(c, w, a + 1, 0, Unclosed, 0)
    ensures !Filler(c, w, a) ==> s.producers == Scene(c, w, a + 1, 0, Unclosed, 0)
  {
  }

  lemma SceneFill(c: Config, w: nat, b: nat, s: State)
    requires b < |c.producers| && s.producers == Scene(c, w, |c.producers|, b, Unclosed, 0)
    ensures Filler(c, w, b) ==> At(s, b, Accepted) == Scene(c, w, |c.producers|, b + 1, Unclosed, 0)
    ensures !Filler(c, w, b) ==> s.producers == Scene(c, w, |c.producers|, b + 1, Unclosed, 0)
  {
  }

  lemma SceneRefuse(c: Config, w: nat, e: nat, s: State)
    requires e < |c.producers| && s.producers == Scene(c, w, |c.producers|, |c.producers|, Asleep, e)
    ensures e != w && !Filler(c, w, e) ==> At(s, e, Refused) == Scene(c, w, |c.producers|, |c.producers|, Asleep, e + 1)
    ensures e == w || Filler(c, w, e) ==> s.producers == Scene(c, w, |c.producers|, |c.producers|, Asleep, e + 1)
  {
  }

  lemma AllLook(c: Config, w: nat) returns (s: State)
    requires ValidConfig(c) && w < |c.producers|
    ensures Reachable(c, s) && Untouched(s) && s.producers == Scene(c, w, |c.producers|, 0, Unclosed, 0)
  {
    hide Reachable, Scene;
    assert Reachable(c, Initial(c)) by { ReachInitial(c); }
    s := LookAtFlag(c, Initial(c), w);
    SceneStarts(c, w);
    for a := 0 to |c.producers|
      invariant Reachable(c, s) && Untouched(s) && s.producers == Scene(c, w, a, 0, Unclosed, 0)
    {
      SceneLook(c, w, a, s);
      ScenePlace(c, w, a, 0, Unclosed, 0, a);
      if Filler(c, w, a) {
        s := LookAtFlag(c, s, a);
      }
    }
  }

  lemma SceneStarts(c: Config, w: nat)
    requires ValidConfig(c) && w < |c.producers|
    ensures At(Initial(c), w, Unclosed) == Scene(c, w, 0, 0, Unclosed, 0)
  {
  }

  lemma ScenePlace(c: Config, w: nat, a: nat, b: nat, p: Place, e: nat, i: nat)
    requires i < |c.producers|
    ensures var scene := Scene(c, w, a, b, p, e);
            && |scene| == |c.producers| && scene[i].waits == c.producers[i].waits
            && (i == w ==> scene[i].place == p)
            && (Filler(c, w, i) ==> scene[i].place == if i < b then Accepted else if i < a then Unclosed else Check)
            && (i != w && !Filler(c, w, i) ==> scene[i].place == if i < e then Refused else Check)
  {
  }

  lemma AllFill(c: Config, w: nat, s0: State) returns (s: State)
    requires w < |c.producers| && c.capacity < |c.producers|
    requires Reachable(c, s0) && Abandoned(s0) && s0.items == []
    requires s0.producers == Scene(c, w, |c.producers|, 0, Unclosed, 0)
    ensures Reachable(c, s) && Abandoned(s) && !HasRoom(c, s)
    ensures s.producers == Scene(c, w, |c.producers|, |c.producers|, Unclosed, 0)
  {
    hide Reachable, Scene;
    s := s0;
    for b := 0 to |c.producers|
      invariant Reachable(c, s) && Abandoned(s) && |s.items| == FillersBefore(c, w, b)
      invariant s.producers == Scene(c, w, |c.producers|, b, Unclosed, 0)
    {
      SceneFill(c, w, b, s);
      ScenePlace(c, w, |c.producers|, b, Unclosed, 0, b);
      if Filler(c, w, b) {
        s := AddLate(c, s, b);
      }
    }
  }

  lemma AllRefused(c: Config, w: nat, s0: State) returns (s: State)
    requires w < |c.producers| && Reachable(c, s0) && Abandoned(s0)
    requires s0.producers == Scene(c, w, |c.producers|, |c.producers|, Asleep, 0)
    ensures Reachable(c, s) && Abandoned(s) && s.items == s0.items
    ensures s.producers == Scene(c, w, |c.producers|, |c.producers|, Asleep, |c.producers|)
  {
    hide Reachable, Scene;
    s := s0;
    for e := 0 to |c.producers|
      invariant Reachable(c, s) && Abandoned(s) && s.items == s0.items
      invariant s.producers == Scene(c, w, |c.producers|, |c.producers|, Asleep, e)
    {
      SceneRefuse(c, w, e, s);
      ScenePlace(c, w, |c.producers|, |c.producers|, Asleep, e, e);
      if e != w && !Filler(c, w, e) {
        s := BeRefused(c, s, e);
      }
    }
  }

  /** Any waiting producer can be stranded when not everybody has room. */
  lemma CloseStrands(c: Config, w: nat) returns (s: State)
    requires ValidConfig(c) && w < |c.producers| && c.producers[w].waits && c.capacity < |c.producers|
    ensures Reachable(c, s) && s.closing == 3 && Terminal(c, s)
    ensures w < |s.producers| && s.producers[w].place.Asleep?
  {
    hide Reachable, Scene;
    var n := |c.producers|;
    s := AllLook(c, w);
    s := Abandon(c, s);
    s := AllFill(c, w, s);
    ScenePlace(c, w, n, n, Unclosed, 0, w);
    SceneSleeps(c, w, s);
    s := FallAsleep(c, s, w);
    s := AllRefused(c, w, s);
    SceneEnds(c, w, s.producers);
    SettledIsTerminal(c, s);
  }

  predicate Settled(p: Place) {
    p.Accepted? || p.Asleep? || p.Refused?
  }

  lemma SceneEnds(c: Config, w: nat, ps: seq<Producer>)
    requires w < |c.producers| && ps == Scene(c, w, |c.producers|, |c.producers|, Asleep, |c.producers|)
    ensures |ps| == |c.producers| && ps[w].place.Asleep? && forall i :: 0 <= i < |ps| ==> Settled(ps[i].place)
  {
  }

  lemma SettledIsTerminal(c: Config, s: State)
    requires Abandoned(s) && forall i :: 0 <= i < |s.producers| ==> Settled(s.producers[i].place)
    ensures Terminal(c, s)
  {
  }

  lemma SceneSleeps(c: Config, w: nat, s: State)
    requires w < |c.producers| && s.producers == Scene(c, w, |c.producers|, |c.producers|, Unclosed, 0)
    ensures At(s, w, Asleep) == Scene(c, w, |c.producers|, |c.producers|, Asleep, 0)
  {
  }

  /** Close leaves no producer asleep for good, in any run, if and only if nobody
      waits or everybody has room. */
  lemma CloseWakesAllIff(c: Config)
    requires ValidConfig(c)
    ensures (forall s :: Reachable(c, s) && s.closing == 3 && Terminal(c, s) ==> NobodyAsleep(s))
            <==> !SomeoneWaits(c) || |c.producers| <= c.capacity
  {
    hide Reachable, Terminal;
    if !SomeoneWaits(c) || |c.producers| <= c.capacity {
      forall s | Reachable(c, s) && s.closing == 3 && Terminal(c, s) ensures NobodyAsleep(s) {
        NobodySleeps(c, s);
      }
    } else {
      var w: nat :| w < |c.producers| && c.producers[w].waits;
      var s := CloseStrands(c, w);
      assert !NobodyAsleep(s);
    }
  }

  // Items accepted after None was returned

  /** A producer can add its item to a queue whose consumer has given up. */
  lemma LateItem(c: Config) returns (s: State)
    requires ValidConfig(c) && c.producers != []
    ensures Reachable(c, s) && s.consumer.Done? && s.items == [c.producers[0].item]
  {
    hide Reachable;
    assert Reachable(c, Initial(c)) by { ReachInitial(c); }
    s := LookAtFlag(c, Initial(c), 0);
    s := Abandon(c, s);
    s := AddLate(c, s, 0);
  }

  /** Every accepted item is delivered before None, in any run, if and only if there
      is no producer. */
  lemma NoneIsFinalIff(c: Config)
    requires ValidConfig(c)
    ensures (forall s :: Reachable(c, s) && s.consumer.Done? ==> s.items == []) <==> c.producers == []
  {
    hide Reachable;
    if c.producers == [] {
      forall s | Reachable(c, s) ensures s.items == [] {
        ReachableRoomy(c, s);
        ReachableInv(c, s);
      }
    } else {
      var s := LateItem(c);
    }
  }

  /** Past the flag and not yet through. */
  predicate InFlight(p: Place) {
    p.Unclosed? || p.Waiting? || p.Pushed?
  }

  ghost predicate Quiet(s: State) {
    s.closing >= 1 && s.consumer.Done? && forall i :: 0 <= i < |s.producers| ==> !InFlight(s.producers[i].place)
  }

  lemma QuietStep(c: Config, s: State, step: Step)
    requires Quiet(s) && Enabled(c, s, step)
    ensures Quiet(Do(c, s, step)) && Do(c, s, step).items == s.items
    ensures Do(c, s, step).accepted == s.accepted && Do(c, s, step).delivered == s.delivered
  {
  }

  /** A run that goes on from `s`. */
  ghost predicate Continues(c: Config, s: State, run: seq<State>) {
    run != [] && run[0] == s && forall i :: 0 <= i < |run| - 1 ==> Next(c, run[i], run[i + 1])
  }

  lemma QuietStays(c: Config, s: State, run: seq<State>)
    requires Quiet(s) && Continues(c, s, run)
    ensures run[|run| - 1].accepted == s.accepted
  {
    hide Quiet, Enabled, Do;
    for i := 0 to |run| - 1
      invariant Quiet(run[i]) && run[i].accepted == s.accepted
    {
      assert Next(c, run[i], run[i + 1]);
      var step :| Enabled(c, run[i], step) && run[i + 1] == Do(c, run[i], step);
      QuietStep(c, run[i], step);
    }
  }

  lemma ContinuesOn(c: Config, s: State, run: seq<State>, step: Step)
    requires Continues(c, s, run) && Enabled(c, run[|run| - 1], step)
    ensures Continues(c, s, run + [Do(c, run[|run| - 1], step)])
  {
    hide Enabled, Do;
    var last := run[|run| - 1];
    var run' := run + [Do(c, last, step)];
    forall i | 0 <= i < |run'| - 1 ensures Next(c, run'[i], run'[i + 1]) {
      if i < |run| - 1 {
        assert Next(c, run[i], run[i + 1]);
      }
    }
  }

  /** A producer past the flag of a queue that was given up empty adds its item. */
  lemma InFlightAdds(c: Config, s: State, i: nat) returns (run: seq<State>)
    requires c.capacity >= 1 && Inv(c, s) && s.consumer.Done? && s.items == []
    requires i < |s.producers| && InFlight(s.producers[i].place)
    ensures Continues(c, s, run) && run[|run| - 1].accepted == s.accepted + [s.producers[i].item]
  {
    assert !SomePushed(s) && !s.locked;
    assert !s.producers[i].place.Pushed?;
    run := [s];
    if s.producers[i].waits && s.producers[i].place.Unclosed? {
      ContinuesOn(c, s, run, Produce(i, MakeFuture));
      run := run + [Do(c, s, Produce(i, MakeFuture))];
    }
    var t := run[|run| - 1];
    assert t.items == [] && !t.locked && t.accepted == s.accepted && t.producers[i].item == s.producers[i].item;
    assert Enabled(c, t, Produce(i, Add));
    ContinuesOn(c, s, run, Produce(i, Add));
    run := run + [Do(c, t, Produce(i, Add))];
  }

  /** Once None was returned from an empty queue, nothing is accepted any more in any
      continuation if and only if no producer is past the flag. */
  lemma NoneIsFinalIffQuiet(c: Config, s: State)
    requires ValidConfig(c) && Reachable(c, s) && s.consumer.Done? && s.items == []
    ensures (forall run: seq<State> :: Continues(c, s, run) ==> run[|run| - 1].accepted == s.accepted) <==> Quiet(s)
  {
    hide Reachable, Continues, Inv;
    ReachableInv(c, s);
    DoneIsClosed(c, s);
    if Quiet(s) {
      forall run: seq<State> | Continues(c, s, run) ensures run != [] && run[|run| - 1].accepted == s.accepted {
        ContinuesNonEmpty(c, s, run);
        QuietStays(c, s, run);
      }
    } else {
      var i: nat :| i < |s.producers| && InFlight(s.producers[i].place);
      var run := InFlightAdds(c, s, i);
      assert |run[|run| - 1].accepted| == |s.accepted| + 1;
    }
  }

  lemma DoneIsClosed(c: Config, s: State)
    requires Inv(c, s) && s.consumer.Done?
    ensures s.closing >= 1
  {
  }

  lemma ContinuesNonEmpty(c: Config, s: State, run: seq<State>)
    requires Continues(c, s, run)
    ensures run != []
  {
  }
}
