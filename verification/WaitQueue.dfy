/** src/fluent-concurrency/src/pool.rs, `Queue`: a bounded queue with one consumer
    and any number of producers, as a state machine over its atomic steps. A
    notification object holds at most one permit; waking all waiters reaches every
    waiting future that already exists, which a generation count records. */
module WaitQueue {

  /** The consumer's place in `pop`. */
  datatype Consumer =
    | Start
    | Created(gen: nat)       // has a waiting future, about to lock
    | Popped                  // has removed an item, holds the lock, about to notify
    | Empty(gen: nat)         // saw an empty open queue, about to await
    | Parked
    | Woken
    | Done                    // returned None

  /** A producer's place in `push_wait`, or in `push`. */
  datatype Place =
    | Check                   // about to read the closed flag
    | Unclosed                // read it as false
    | Waiting(gen: nat)       // has a waiting future, about to lock
    | Pushed                  // has added its item, holds the lock, about to notify
    | Full(gen: nat)          // saw a full queue, about to await
    | Asleep
    | Roused
    | Accepted
    | Refused

  datatype Producer = Producer(place: Place, item: int, waits: bool)

  datatype Config = Config(capacity: nat, producers: seq<Producer>)

  datatype State = State(
    items: seq<int>,
    closing: nat,             // 0 open, 1 flag set, 2 consumer notified, 3 producers notified
    locked: bool,
    itemPermit: bool, itemGen: nat,
    spacePermit: bool, spaceGen: nat,
    consumer: Consumer,
    producers: seq<Producer>,
    accepted: seq<int>,       // items added so far, in order
    delivered: seq<int>,      // items removed so far, in order
    raced: set<nat>)          // producers between flag and future when close notified

  ghost predicate ValidConfig(c: Config) {
    c.capacity >= 1 && forall i :: 0 <= i < |c.producers| ==> c.producers[i].place == Check
  }

  function Initial(c: Config): State {
    State([], 0, false, false, 0, false, 0, Start, c.producers, [], [], {})
  }

  datatype ConsumerStep = Create | Take | Await | Resume | NotifySpace(who: nat)

  datatype ProducerStep = ReadFlag | MakeFuture | Add | NotifyItem | AwaitSpace | Retry

  datatype Step = Consume(c: ConsumerStep) | Produce(i: nat, p: ProducerStep) | Close

  ghost predicate NobodyAsleep(s: State) {
    forall k :: 0 <= k < |s.producers| ==> !s.producers[k].place.Asleep?
  }

  /** Waking one waiter wakes a sleeper if there is one. */
  ghost predicate ConsumerEnabled(s: State, step: ConsumerStep) {
    match step
    case Create => s.consumer.Start?
    case Take => s.consumer.Created? && !s.locked
    case Await => s.consumer.Empty?
    case Resume => s.consumer.Woken?
    case NotifySpace(who) =>
      s.consumer.Popped? && ((who < |s.producers| && s.producers[who].place.Asleep?) || NobodyAsleep(s))
  }

  ghost predicate ProducerEnabled(s: State, p: Producer, step: ProducerStep) {
    match step
    case ReadFlag => p.place.Check?
    case MakeFuture => p.place.Unclosed? && p.waits
    case Add => !s.locked && (if p.waits then p.place.Waiting? else p.place.Unclosed?)
    case NotifyItem => p.place.Pushed?
    case AwaitSpace => p.place.Full?
    case Retry => p.place.Roused?
  }

  ghost predicate Enabled(c: Config, s: State, step: Step) {
    match step
    case Consume(what) => ConsumerEnabled(s, what)
    case Produce(i, what) => i < |s.producers| && ProducerEnabled(s, s.producers[i], what)
    case Close => s.closing < 3
  }

  function At(s: State, i: nat, p: Place): seq<Producer>
    requires i < |s.producers|
  {
    s.producers[i := s.producers[i].(place := p)]
  }

  /** `notify_waiters`: every sleeper is roused. */
  function RouseAll(ps: seq<Producer>): (r: seq<Producer>)
    ensures |r| == |ps|
    ensures forall i :: 0 <= i < |ps| ==> r[i] == if ps[i].place.Asleep? then ps[i].(place := Roused) else ps[i]
  {
    seq(|ps|, i requires 0 <= i < |ps| => if ps[i].place.Asleep? then ps[i].(place := Roused) else ps[i])
  }

  ghost function DoConsumer(s: State, step: ConsumerStep): State
    requires ConsumerEnabled(s, step)
  {
    match step
    case Create => s.(consumer := Created(s.itemGen))
    case Take =>
      if s.items != [] then
        s.(items := s.items[1..], delivered := s.delivered + [s.items[0]], locked := true, consumer := Popped)
      else if s.closing >= 1 then s.(consumer := Done)
      else s.(consumer := Empty(s.consumer.gen))
    case Await =>
      if s.itemPermit then s.(itemPermit := false, consumer := Woken)
      else if s.consumer.gen != s.itemGen then s.(consumer := Woken)
      else s.(consumer := Parked)
    case Resume => s.(consumer := Start)
    case NotifySpace(who) =>
      if who < |s.producers| && s.producers[who].place.Asleep?
      then s.(producers := At(s, who, Roused), locked := false, consumer := Start)
      else s.(spacePermit := true, locked := false, consumer := Start)
  }

  ghost predicate HasRoom(c: Config, s: State) {
    |s.items| < c.capacity
  }

  ghost function NextPlace(c: Config, s: State, p: Producer, step: ProducerStep): Place
    requires ProducerEnabled(s, p, step)
  {
    match step
    case ReadFlag => if s.closing >= 1 then Refused else Unclosed
    case MakeFuture => Waiting(s.spaceGen)
    case Add => if HasRoom(c, s) then Pushed else if p.waits then Full(p.place.gen) else Refused
    case NotifyItem => Accepted
    case AwaitSpace => if s.spacePermit || p.place.gen != s.spaceGen then Roused else Asleep
    case Retry => Check
  }

  /** What a producer's step does beside moving the producer. */
  ghost function Effect(c: Config, s: State, item: int, step: ProducerStep): State {
    match step
    case Add =>
      if HasRoom(c, s) then s.(items := s.items + [item], accepted := s.accepted + [item], locked := true) else s
    case NotifyItem =>
      if s.consumer.Parked? then s.(consumer := Woken, locked := false) else s.(itemPermit := true, locked := false)
    case AwaitSpace => s.(spacePermit := false)
    case _ => s
  }

  ghost function DoClose(s: State): State {
    if s.closing == 0 then s.(closing := 1)
    else if s.closing == 1 then
      s.(closing := 2, itemGen := s.itemGen + 1, consumer := if s.consumer.Parked? then Woken else s.consumer)
    else
      s.(closing := 3, spaceGen := s.spaceGen + 1, producers := RouseAll(s.producers),
         raced := set i: nat | i < |s.producers| && s.producers[i].place.Unclosed?)
  }

  ghost function Do(c: Config, s: State, step: Step): State
    requires Enabled(c, s, step)
  {
    match step
    case Consume(what) => DoConsumer(s, what)
    case Produce(i, what) =>
      Effect(c, s, s.producers[i].item, what).(producers := At(s, i, NextPlace(c, s, s.producers[i], what)))
    case Close => DoClose(s)
  }

  ghost predicate IsRun(c: Config, run: seq<State>) {
    && run != []
    && run[0] == Initial(c)
    && forall i :: 0 <= i < |run| - 1 ==> Next(c, run[i], run[i + 1])
  }

  ghost predicate Next(c: Config, s: State, s': State) {
    exists step :: Enabled(c, s, step) && s' == Do(c, s, step)
  }

  ghost predicate Reachable(c: Config, s: State) {
    exists run :: IsRun(c, run) && run[|run| - 1] == s
  }

  // Invariants

  ghost predicate SomePushed(s: State) {
    exists i :: 0 <= i < |s.producers| && s.producers[i].place.Pushed?
  }

  /** About to add an item, or to look again. */
  predicate Active(p: Place) {
    p.Check? || p.Unclosed? || p.Waiting? || p.Roused?
  }

  ghost predicate SomeActive(s: State) {
    exists i :: 0 <= i < |s.producers| && Active(s.producers[i].place)
  }

  ghost predicate SomeWaiter(s: State) {
    exists i :: 0 <= i < |s.producers| && (s.producers[i].place.Asleep? || s.producers[i].place.Full?)
  }

  ghost predicate LockInv(s: State) {
    && (s.locked <==> s.consumer.Popped? || SomePushed(s))
    && (SomePushed(s) ==> s.items != [] && !s.consumer.Popped?)
    && (forall i, j :: 0 <= i < j < |s.producers| ==> !(s.producers[i].place.Pushed? && s.producers[j].place.Pushed?))
  }

  /** Nothing is lost, duplicated or reordered, and the bound is kept. */
  ghost predicate ContentInv(c: Config, s: State) {
    s.accepted == s.delivered + s.items && |s.items| <= c.capacity
  }

  /** A parked consumer, or one about to park, has not missed an item. */
  ghost predicate ConsumerInv(s: State) {
    && (s.consumer.Parked? ==> !s.itemPermit && s.closing < 2 && (s.items != [] ==> SomePushed(s)))
    && (s.consumer.Empty? ==> s.consumer.gen <= s.itemGen && (s.closing >= 2 ==> s.consumer.gen < s.itemGen)
                              && (s.items != [] ==> s.itemPermit || SomePushed(s)))
    && (s.consumer.Created? ==> s.consumer.gen <= s.itemGen)
    && (s.closing < 2 ==> s.itemGen == 0)
    && (s.consumer.Done? ==> s.closing >= 1)
  }

  ghost predicate PlacesInv(s: State) {
    forall i :: 0 <= i < |s.producers| ==>
      var p := s.producers[i];
      && (p.place.Asleep? ==> !s.spacePermit)
      && (p.place.Waiting? || p.place.Full? ==> p.place.gen <= s.spaceGen)
      && (p.place.Waiting? || p.place.Full? || p.place.Asleep? || p.place.Roused? ==> p.waits)
  }

  /** While the queue is open, producers that wait on an empty queue have somebody
      to wait for: a permit, an active producer, or the consumer about to notify. */
  ghost predicate SpaceInv(s: State) {
    s.closing == 0 && s.items == [] && SomeWaiter(s) ==> s.spacePermit || SomeActive(s) || s.consumer.Popped?
  }

  /** After close, a producer can sleep only if close passed it between its look at
      the flag and the creation of its future. */
  ghost predicate RaceInv(s: State) {
    s.closing == 3 ==>
      forall i :: 0 <= i < |s.producers| ==>
        var p := s.producers[i].place;
        && (p.Unclosed? || p.Asleep? ==> i in s.raced)
        && (p.Waiting? || p.Full? ==> i in s.raced || p.gen < s.spaceGen)
  }

  ghost predicate Inv(c: Config, s: State) {
    && s.closing <= 3
    && LockInv(s) && ContentInv(c, s) && ConsumerInv(s) && PlacesInv(s) && SpaceInv(s) && RaceInv(s)
  }

  lemma InitInv(c: Config)
    requires ValidConfig(c)
    ensures Inv(c, Initial(c))
  {
  }

  // The consumer's steps

  lemma ConsumerStepPlaces(s: State, step: ConsumerStep)
    requires ConsumerEnabled(s, step)
    ensures var t := DoConsumer(s, step);
            && |t.producers| == |s.producers|
            && forall k: nat :: k < |s.producers| ==>
                 t.producers[k] == if step == NotifySpace(k) && s.producers[k].place.Asleep?
                                   then s.producers[k].(place := Roused) else s.producers[k]
  {
  }

  lemma ConsumerStepLock(s: State, step: ConsumerStep)
    requires LockInv(s) && ConsumerEnabled(s, step)
    ensures LockInv(DoConsumer(s, step))
    ensures SomePushed(DoConsumer(s, step)) <==> SomePushed(s)
  {
    ConsumerStepPlaces(s, step);
    var t := DoConsumer(s, step);
    assert forall k: nat :: k < |s.producers| ==> (t.producers[k].place.Pushed? <==> s.producers[k].place.Pushed?);
    if SomePushed(s) {
      var k: nat :| k < |s.producers| && s.producers[k].place.Pushed?;
      assert t.producers[k].place.Pushed?;
    }
  }

  lemma ConsumerStepContent(c: Config, s: State, step: ConsumerStep)
    requires ContentInv(c, s) && ConsumerEnabled(s, step)
    ensures ContentInv(c, DoConsumer(s, step))
  {
  }

  lemma ConsumerStepConsumer(s: State, step: ConsumerStep)
    requires LockInv(s) && ConsumerInv(s) && ConsumerEnabled(s, step)
    ensures ConsumerInv(DoConsumer(s, step))
  {
  }

  lemma ConsumerStepPlacesInv(s: State, step: ConsumerStep)
    requires PlacesInv(s) && RaceInv(s) && ConsumerEnabled(s, step)
    ensures PlacesInv(DoConsumer(s, step)) && RaceInv(DoConsumer(s, step))
  {
    ConsumerStepPlaces(s, step);
    var t := DoConsumer(s, step);
    assert t.closing == s.closing && t.spaceGen == s.spaceGen && t.raced == s.raced;
    assert t.spacePermit ==> s.spacePermit || NobodyAsleep(s);
    hide DoConsumer;
  }

  lemma ConsumerStepSpace(s: State, step: ConsumerStep)
    requires SpaceInv(s) && ConsumerEnabled(s, step)
    ensures SpaceInv(DoConsumer(s, step))
  {
    ConsumerStepPlaces(s, step);
    var t := DoConsumer(s, step);
    assert t.closing == s.closing && (s.spacePermit ==> t.spacePermit);
    assert t.items == s.items || t.consumer.Popped?;
    assert s.consumer.Popped? && !step.NotifySpace? ==> t.consumer.Popped?;
    assert step.NotifySpace? ==> t.spacePermit || (step.who < |s.producers| && s.producers[step.who].place.Asleep?);
    hide DoConsumer;
    if SomeActive(s) {
      var k: nat :| k < |s.producers| && Active(s.producers[k].place);
      assert Active(t.producers[k].place);
    }
    if SomeWaiter(t) {
      var k: nat :| k < |t.producers| && (t.producers[k].place.Asleep? || t.producers[k].place.Full?);
      assert s.producers[k].place.Asleep? || s.producers[k].place.Full?;
    }
    if step.NotifySpace? && step.who < |s.producers| && s.producers[step.who].place.Asleep? {
      assert Active(t.producers[step.who].place);
    }
  }

  // The producers' steps

  lemma ProducerStepPlaces(c: Config, s: State, i: nat, step: ProducerStep)
    requires i < |s.producers| && ProducerEnabled(s, s.producers[i], step)
    ensures var t := Do(c, s, Produce(i, step));
            && |t.producers| == |s.producers|
            && (forall k: nat :: k < |s.producers| && k != i ==> t.producers[k] == s.producers[k])
            && t.producers[i] == s.producers[i].(place := NextPlace(c, s, s.producers[i], step))
  {
  }

  lemma ProducerStepKeeps(c: Config, s: State, i: nat, step: ProducerStep)
    requires LockInv(s) && ContentInv(c, s) && ConsumerInv(s)
    requires i < |s.producers| && ProducerEnabled(s, s.producers[i], step)
    ensures var t := Do(c, s, Produce(i, step)); LockInv(t) && ContentInv(c, t) && ConsumerInv(t)
  {
    var t := Do(c, s, Produce(i, step));
    ProducerStepPlaces(c, s, i, step);
    if SomePushed(s) {
      var k: nat :| k < |s.producers| && s.producers[k].place.Pushed?;
      assert t.producers[k].place.Pushed? || (k == i && step.NotifyItem?);
    }
    if step.Add? && HasRoom(c, s) {
      assert t.producers[i].place.Pushed?;
    }
  }

  lemma ProducerStepPlacesInv(c: Config, s: State, i: nat, step: ProducerStep)
    requires s.closing <= 3 && PlacesInv(s) && RaceInv(s) && i < |s.producers|
    requires ProducerEnabled(s, s.producers[i], step)
    ensures var t := Do(c, s, Produce(i, step)); PlacesInv(t) && RaceInv(t)
  {
    var t := Do(c, s, Produce(i, step));
    ProducerStepPlaces(c, s, i, step);
    assert t.closing == s.closing && t.spaceGen == s.spaceGen && t.raced == s.raced;
    assert t.spacePermit ==> s.spacePermit && !step.AwaitSpace?;
    hide Do;
  }

  lemma ProducerStepSpace(c: Config, s: State, i: nat, step: ProducerStep)
    requires c.capacity >= 1 && SpaceInv(s) && i < |s.producers| && ProducerEnabled(s, s.producers[i], step)
    ensures SpaceInv(Do(c, s, Produce(i, step)))
  {
    var t := Do(c, s, Produce(i, step));
    ProducerStepPlaces(c, s, i, step);
    assert t.closing == s.closing && (s.consumer.Popped? ==> t.consumer.Popped?);
    assert s.spacePermit && !step.AwaitSpace? ==> t.spacePermit;
    assert step.Add? ==> t.items != [];
    assert !step.Add? ==> t.items == s.items;
    hide Do;
    if SomeActive(s) {
      var k: nat :| k < |s.producers| && Active(s.producers[k].place);
      assert Active(t.producers[k].place) || k == i;
    }
    if SomeWaiter(t) {
      var k: nat :| k < |t.producers| && (t.producers[k].place.Asleep? || t.producers[k].place.Full?);
      assert s.producers[k].place.Asleep? || s.producers[k].place.Full? || step.Add?;
    }
    if step.AwaitSpace? && s.spacePermit {
      assert Active(t.producers[i].place);
    }
  }

  // Close

  lemma CloseKeeps(c: Config, s: State)
    requires c.capacity >= 1 && Inv(c, s) && s.closing < 3
    ensures Inv(c, DoClose(s))
  {
    hide DoClose, LockInv, ContentInv, ConsumerInv, PlacesInv, SpaceInv, RaceInv;
    CloseKeepsConsumer(c, s);
    CloseKeepsProducers(s);
  }

  lemma ClosePushed(s: State)
    ensures SomePushed(DoClose(s)) <==> SomePushed(s)
  {
    var t := DoClose(s);
    assert forall k: nat :: k < |s.producers| ==> (t.producers[k].place.Pushed? <==> s.producers[k].place.Pushed?);
    if SomePushed(s) {
      var k: nat :| k < |s.producers| && s.producers[k].place.Pushed?;
      assert t.producers[k].place.Pushed?;
    }
  }

  lemma CloseKeepsConsumer(c: Config, s: State)
    requires LockInv(s) && ContentInv(c, s) && ConsumerInv(s) && s.closing < 3
    ensures LockInv(DoClose(s)) && ContentInv(c, DoClose(s)) && ConsumerInv(DoClose(s)) && SpaceInv(DoClose(s))
  {
    ClosePushed(s);
    hide SomePushed;
  }

  lemma CloseKeepsProducers(s: State)
    requires PlacesInv(s) && RaceInv(s) && s.closing < 3
    ensures PlacesInv(DoClose(s)) && RaceInv(DoClose(s)) && DoClose(s).closing <= 3
  {
  }

  lemma InvKept(c: Config, s: State, step: Step)
    requires c.capacity >= 1 && Inv(c, s) && Enabled(c, s, step)
    ensures Inv(c, Do(c, s, step))
  {
    hide LockInv, ContentInv, ConsumerInv, PlacesInv, SpaceInv, RaceInv;
    match step {
      case Consume(what) =>
        ConsumerStepLock(s, what);
        ConsumerStepContent(c, s, what);
        ConsumerStepConsumer(s, what);
        ConsumerStepPlacesInv(s, what);
        ConsumerStepSpace(s, what);
      case Produce(i, what) =>
        ProducerStepKeeps(c, s, i, what);
        ProducerStepPlacesInv(c, s, i, what);
        ProducerStepSpace(c, s, i, what);
      case Close =>
        CloseKeeps(c, s);
    }
  }

  lemma ReachableInv(c: Config, s: State)
    requires ValidConfig(c) && Reachable(c, s)
    ensures Inv(c, s)
  {
    hide Inv, Do, Enabled;
    var run :| IsRun(c, run) && run[|run| - 1] == s;
    InitInv(c);
    for i := 0 to |run| - 1
      invariant Inv(c, run[i])
    {
      assert Next(c, run[i], run[i + 1]);
      var step :| Enabled(c, run[i], step) && run[i + 1] == Do(c, run[i], step);
      InvKept(c, run[i], step);
    }
  }

  // What every run keeps

  lemma RunInv(c: Config, run: seq<State>, k: nat)
    requires ValidConfig(c) && IsRun(c, run) && k < |run|
    ensures Inv(c, run[k])
  {
    hide Inv, Next;
    var front := run[..k + 1];
    assert IsRun(c, front) && front[|front| - 1] == run[k];
    assert Reachable(c, run[k]);
    ReachableInv(c, run[k]);
  }

  /** The consumer was about to await and goes on at once. */
  ghost predicate GoesOn(s: State, t: State) {
    s.consumer.Empty? && t.consumer.Woken?
  }

  /** A producer that has added its item notifies. */
  ghost predicate Notifies(s: State, t: State) {
    exists i: nat :: i < |s.producers| && i < |t.producers| &&
                     s.producers[i].place.Pushed? && t.producers[i].place.Accepted?
  }

  lemma PermitStep(c: Config, s: State, step: Step)
    requires ConsumerInv(s) && Enabled(c, s, step)
    ensures var t := Do(c, s, step);
            && s.closing <= t.closing
            && (GoesOn(s, t) && s.closing < 2 ==> s.itemPermit && !t.itemPermit)
            && (t.itemPermit && !s.itemPermit ==> Notifies(s, t))
  {
    var t := Do(c, s, step);
    if step.Produce? && step.p.NotifyItem? {
      assert s.producers[step.i].place.Pushed? && t.producers[step.i].place.Accepted?;
    }
  }

  /** No await returns for nothing: on an open queue a consumer that goes on twice was
      notified in between. */
  lemma GoesOnOnlyNotified(c: Config, run: seq<State>, i: nat, j: nat)
    requires ValidConfig(c) && IsRun(c, run) && i < j < |run| - 1
    requires GoesOn(run[i], run[i + 1]) && GoesOn(run[j], run[j + 1]) && run[j].closing < 2
    ensures exists k :: i < k < j && Notifies(run[k], run[k + 1])
  {
    hide GoesOn, Notifies, Inv, Do, Enabled;
    PermitInRun(c, run, i);
    PermitInRun(c, run, j);
    ClosingGrows(c, run, i, j);
    var k := i + 1;
    while k < j && !run[k + 1].itemPermit
      invariant i < k <= j && !run[k].itemPermit
    {
      k := k + 1;
    }
    assert k < j && run[k + 1].itemPermit;
    PermitInRun(c, run, k);
  }

  lemma PermitInRun(c: Config, run: seq<State>, k: nat)
    requires ValidConfig(c) && IsRun(c, run) && k < |run| - 1
    ensures run[k].closing <= run[k + 1].closing
    ensures GoesOn(run[k], run[k + 1]) && run[k].closing < 2 ==> run[k].itemPermit && !run[k + 1].itemPermit
    ensures run[k + 1].itemPermit && !run[k].itemPermit ==> Notifies(run[k], run[k + 1])
  {
    RunInv(c, run, k);
    hide GoesOn, Notifies, Do, Enabled;
    assert Next(c, run[k], run[k + 1]);
    var step :| Enabled(c, run[k], step) && run[k + 1] == Do(c, run[k], step);
    PermitStep(c, run[k], step);
  }

  lemma ClosingGrows(c: Config, run: seq<State>, i: nat, j: nat)
    requires ValidConfig(c) && IsRun(c, run) && i <= j < |run|
    ensures run[i].closing <= run[j].closing
  {
    hide IsRun;
    for k := i to j
      invariant run[i].closing <= run[k].closing
    {
      PermitInRun(c, run, k);
    }
  }

  /** Items come out once, in the order they went in, and never exceed capacity. */
  lemma FirstInFirstOut(c: Config, s: State)
    requires ValidConfig(c) && Reachable(c, s)
    ensures s.accepted == s.delivered + s.items && |s.items| <= c.capacity
  {
    ReachableInv(c, s);
  }

  /** A parked consumer of a non-empty queue has a wake-up on its way. */
  lemma NoLostItem(c: Config, s: State)
    requires ValidConfig(c) && Reachable(c, s) && s.consumer.Parked? && s.items != []
    ensures SomePushed(s)
  {
    ReachableInv(c, s);
  }

  /** An unfinished producer is about to move, or the lock holder is. */
  lemma AwakeCanMove(c: Config, s: State, i: nat)
    requires LockInv(s) && !s.consumer.Popped? && i < |s.producers|
    requires Active(s.producers[i].place) || s.producers[i].place.Pushed? || s.producers[i].place.Full?
    requires s.producers[i].place.Waiting? ==> s.producers[i].waits
    ensures exists k, p :: Enabled(c, s, Produce(k, p))
  {
    if s.locked {
      var k: nat :| k < |s.producers| && s.producers[k].place.Pushed?;
      assert Enabled(c, s, Produce(k, NotifyItem));
    } else {
      var p := s.producers[i];
      var step := match p.place
        case Check => ReadFlag
        case Unclosed => if p.waits then MakeFuture else Add
        case Waiting(_) => Add
        case Full(_) => AwaitSpace
        case Roused => Retry
        case _ => NotifyItem;
      assert Enabled(c, s, Produce(i, step));
    }
  }

  /** On an open queue a parked consumer and waiting producers never block each
      other: while any producer is unfinished, one of them can move. */
  lemma NoDeadlock(c: Config, s: State, i: nat)
    requires ValidConfig(c) && Reachable(c, s) && s.closing == 0 && s.consumer.Parked?
    requires i < |s.producers| && !s.producers[i].place.Accepted? && !s.producers[i].place.Refused?
    ensures exists k, p :: Enabled(c, s, Produce(k, p))
  {
    ReachableInv(c, s);
    var p := s.producers[i];
    if !p.place.Asleep? {
      AwakeCanMove(c, s, i);
    } else if s.items != [] {
      var k: nat :| k < |s.producers| && s.producers[k].place.Pushed?;
      AwakeCanMove(c, s, k);
    } else {
      assert SomeWaiter(s) && !s.spacePermit;
      var k: nat :| k < |s.producers| && Active(s.producers[k].place);
      AwakeCanMove(c, s, k);
    }
  }

  /** `pop` returns None only from a closed and empty queue. */
  lemma NoneMeansClosedAndEmpty(c: Config, s: State, step: Step)
    requires Enabled(c, s, step) && !s.consumer.Done? && Do(c, s, step).consumer.Done?
    ensures s.closing >= 1 && s.items == [] && step == Consume(Take)
  {
  }

  /** Once close has notified, the consumer is not parked and will not park. */
  lemma CloseFreesConsumer(c: Config, s: State)
    requires ValidConfig(c) && Reachable(c, s) && s.closing >= 2
    ensures !s.consumer.Parked?
    ensures Enabled(c, s, Consume(Await)) ==> Do(c, s, Consume(Await)).consumer.Woken?
  {
    ReachableInv(c, s);
  }

  /** After close, a producer still asleep is one that close overtook. */
  lemma OnlyRacedSleepAfterClose(c: Config, s: State, i: nat)
    requires ValidConfig(c) && Reachable(c, s) && s.closing == 3
    requires i < |s.producers| && s.producers[i].place.Asleep?
    ensures i in s.raced
  {
    ReachableInv(c, s);
  }

  // The promise that close wakes every waiter does not hold for producers.

  lemma Go(c: Config, s: State, step: Step, t: State)
    requires Reachable(c, s) && Enabled(c, s, step) && t == Do(c, s, step)
    ensures Reachable(c, t)
  {
    hide Enabled, Do;
    var run :| IsRun(c, run) && run[|run| - 1] == s;
    var run' := run + [t];
    forall i | 0 <= i < |run'| - 1 ensures Next(c, run'[i], run'[i + 1]) {
      if i < |run| - 1 {
        assert Next(c, run[i], run[i + 1]);
      }
    }
    assert IsRun(c, run');
  }

  function Three(p: Place, q: Place, r: Place): seq<Producer> {
    [Producer(p, 10, true), Producer(q, 11, true), Producer(r, 12, true)]
  }

  /** Producer 0 has filled the queue of capacity one; 1 and 2 have seen it open;
      then the queue is closed. */
  lemma ClosedWhileChecking(c: Config) returns (s: State)
    requires c == Config(1, Three(Check, Check, Check))
    ensures Reachable(c, s)
    ensures s == State([10], 3, false, true, 1, false, 1, Start, Three(Accepted, Unclosed, Unclosed), [10], [], {1, 2})
  {
    hide Reachable;
    s := Initial(c);
    assert Reachable(c, s) by { ReachInitial(c); }
    var t := s.(producers := Three(Unclosed, Check, Check));
    Go(c, s, Produce(0, ReadFlag), t);
    s, t := t, t.(producers := Three(Waiting(0), Check, Check));
    Go(c, s, Produce(0, MakeFuture), t);
    s, t := t, t.(producers := Three(Pushed, Check, Check), items := [10], accepted := [10], locked := true);
    Go(c, s, Produce(0, Add), t);
    s, t := t, t.(producers := Three(Accepted, Check, Check), itemPermit := true, locked := false);
    Go(c, s, Produce(0, NotifyItem), t);
    s, t := t, t.(producers := Three(Accepted, Unclosed, Check));
    Go(c, s, Produce(1, ReadFlag), t);
    s, t := t, t.(producers := Three(Accepted, Unclosed, Unclosed));
    Go(c, s, Produce(2, ReadFlag), t);
    s, t := t, t.(closing := 1);
    Go(c, s, Close, t);
    s, t := t, t.(closing := 2, itemGen := 1);
    Go(c, s, Close, t);
    s, t := t, t.(closing := 3, spaceGen := 1, raced := {1, 2});
    Go(c, s, Close, t);
    s := t;
  }

  lemma ReachInitial(c: Config)
    ensures Reachable(c, Initial(c))
  {
    assert IsRun(c, [Initial(c)]);
  }

  lemma BothFallAsleep(c: Config, s0: State) returns (s: State)
    requires c.capacity == 1 && Reachable(c, s0)
    requires s0 == State([10], 3, false, true, 1, false, 1, Start, Three(Accepted, Unclosed, Unclosed),
                         [10], [], {1, 2})
    ensures Reachable(c, s) && s == s0.(producers := Three(Accepted, Asleep, Asleep))
  {
    hide Reachable;
    s := s0;
    var t := s.(producers := Three(Accepted, Waiting(1), Unclosed));
    Go(c, s, Produce(1, MakeFuture), t);
    s, t := t, t.(producers := Three(Accepted, Full(1), Unclosed));
    Go(c, s, Produce(1, Add), t);
    s, t := t, t.(producers := Three(Accepted, Asleep, Unclosed));
    Go(c, s, Produce(1, AwaitSpace), t);
    s, t := t, t.(producers := Three(Accepted, Asleep, Waiting(1)));
    Go(c, s, Produce(2, MakeFuture), t);
    s, t := t, t.(producers := Three(Accepted, Asleep, Full(1)));
    Go(c, s, Produce(2, Add), t);
    s, t := t, t.(producers := Three(Accepted, Asleep, Asleep));
    Go(c, s, Produce(2, AwaitSpace), t);
    s := t;
  }

  /** A run that ends with the queue closed and drained, and a producer asleep for
      good: no step is left to take. */
  lemma CloseStrandsProducer(c: Config) returns (s: State)
    requires c == Config(1, Three(Check, Check, Check))
    ensures Reachable(c, s) && s.closing == 3 && s.items == [] && s.consumer.Done?
    ensures |s.producers| == 3 && s.producers[2].place.Asleep? && forall step :: !Enabled(c, s, step)
  {
    hide Reachable;
    s := ClosedWhileChecking(c);
    s := BothFallAsleep(c, s);
    var t := s.(consumer := Created(1));
    Go(c, s, Consume(Create), t);
    s, t := t, t.(consumer := Popped, items := [], delivered := [10], locked := true);
    Go(c, s, Consume(Take), t);
    s, t := t, t.(consumer := Start, locked := false, producers := Three(Accepted, Roused, Asleep));
    Go(c, s, Consume(NotifySpace(1)), t);
    s, t := t, t.(consumer := Created(1));
    Go(c, s, Consume(Create), t);
    s, t := t, t.(consumer := Done);
    Go(c, s, Consume(Take), t);
    s, t := t, t.(producers := Three(Accepted, Check, Asleep));
    Go(c, s, Produce(1, Retry), t);
    s, t := t, t.(producers := Three(Accepted, Refused, Asleep));
    Go(c, s, Produce(1, ReadFlag), t);
    s := t;
  }
}
