/** src/fluent-concurrency/src/pool.rs, `WorkerPool`: several workers that pop from one
    open `Queue`. Only the notification of items matters here, so items are counted
    and producers are the steps that add one. */
module Workers {

  datatype Config = Config(capacity: nat, workers: nat)

  /** A worker's place in its loop around `pop`. */
  datatype Worker =
    | Busy                    // has an item, or has not called `pop` yet
    | Created                 // has a waiting future, about to lock
    | Empty                   // saw an empty queue, about to await
    | Parked
    | Woken

  /** `added` and `taken` count all items so far. */
  datatype State = State(queued: nat, adding: bool, permit: bool, workers: seq<Worker>, added: nat, taken: nat)

  function Initial(c: Config): State {
    State(0, false, false, seq(c.workers, _ => Busy), 0, 0)
  }

  /** A producer adds an item and notifies while it holds the lock. */
  datatype Step = Add | Notify(who: nat) | Create(i: nat) | Take(i: nat) | Await(i: nat)

  ghost predicate NobodyParked(s: State) {
    forall i :: 0 <= i < |s.workers| ==> !s.workers[i].Parked?
  }

  ghost predicate Enabled(c: Config, s: State, step: Step) {
    match step
    case Add => !s.adding && s.queued < c.capacity
    case Notify(who) => s.adding && ((who < |s.workers| && s.workers[who].Parked?) || NobodyParked(s))
    case Create(i) => i < |s.workers| && (s.workers[i].Busy? || s.workers[i].Woken?)
    case Take(i) => i < |s.workers| && s.workers[i].Created? && !s.adding
    case Await(i) => i < |s.workers| && s.workers[i].Empty?
  }

  ghost function Do(c: Config, s: State, step: Step): State
    requires Enabled(c, s, step)
  {
    match step
    case Add => s.(queued := s.queued + 1, adding := true, added := s.added + 1)
    case Notify(who) =>
      if who < |s.workers| && s.workers[who].Parked? then s.(adding := false, workers := s.workers[who := Woken])
      else s.(adding := false, permit := true)
    case Create(i) => s.(workers := s.workers[i := Created])
    case Take(i) =>
      if s.queued > 0 then s.(queued := s.queued - 1, workers := s.workers[i := Busy], taken := s.taken + 1)
      else s.(workers := s.workers[i := Empty])
    case Await(i) =>
      if s.permit then s.(permit := false, workers := s.workers[i := Woken])
      else s.(workers := s.workers[i := Parked])
  }

  ghost predicate Next(c: Config, s: State, s': State) {
    exists step :: Enabled(c, s, step) && s' == Do(c, s, step)
  }

  ghost predicate IsRun(c: Config, run: seq<State>) {
    run != [] && run[0] == Initial(c) && forall i :: 0 <= i < |run| - 1 ==> Next(c, run[i], run[i + 1])
  }

  ghost predicate Reachable(c: Config, s: State) {
    exists run :: IsRun(c, run) && run[|run| - 1] == s
  }

  lemma Go(c: Config, s: State, step: Step) returns (t: State)
    requires Reachable(c, s) && Enabled(c, s, step)
    ensures Reachable(c, t) && t == Do(c, s, step)
  {
    hide Enabled, Do;
    t := Do(c, s, step);
    var run :| IsRun(c, run) && run[|run| - 1] == s;
    var run' := run + [t];
    forall i | 0 <= i < |run'| - 1 ensures Next(c, run'[i], run'[i + 1]) {
      if i < |run| - 1 {
        assert Next(c, run[i], run[i + 1]);
      }
    }
    assert IsRun(c, run');
  }

  // What every run keeps

  /** Is going to look at the queue, or will when it takes the permit. */
  predicate Alert(s: State, w: Worker) {
    w.Busy? || w.Created? || w.Woken? || (w.Empty? && s.permit)
  }

  ghost predicate SomeAlert(s: State) {
    exists i :: 0 <= i < |s.workers| && Alert(s, s.workers[i])
  }

  ghost predicate Inv(c: Config, s: State) {
    && |s.workers| == c.workers
    && s.added == s.taken + s.queued && s.queued <= c.capacity
    && (s.adding ==> s.queued > 0)
    && (s.permit ==> NobodyParked(s))
    && (s.queued > 0 ==> s.adding || SomeAlert(s))
  }

  lemma InvKept(c: Config, s: State, step: Step)
    requires c.workers >= 1 && Inv(c, s) && Enabled(c, s, step)
    ensures Inv(c, Do(c, s, step))
  {
    var t := Do(c, s, step);
    if SomeAlert(s) {
      var k: nat :| k < |s.workers| && Alert(s, s.workers[k]);
      AlertStays(c, s, step, k);
    }
    match step {
      case Add =>
      case Notify(who) => NotifyAlerts(c, s, who);
      case Create(i) => assert Alert(t, t.workers[i]);
      case Take(i) => assert s.queued > 0 ==> Alert(t, t.workers[i]);
      case Await(i) => assert s.permit ==> Alert(t, t.workers[i]);
    }
  }

  lemma NotifyAlerts(c: Config, s: State, who: nat)
    requires c.workers >= 1 && |s.workers| == c.workers && Enabled(c, s, Notify(who))
    ensures SomeAlert(Do(c, s, Notify(who)))
  {
    var t := Do(c, s, Notify(who));
    var k := if who < |s.workers| && s.workers[who].Parked? then who else 0;
    assert Alert(t, t.workers[k]);
  }

  /** An alert worker stays so unless it finds the queue empty. */
  lemma AlertStays(c: Config, s: State, step: Step, k: nat)
    requires Enabled(c, s, step) && k < |s.workers| && Alert(s, s.workers[k])
    ensures var t := Do(c, s, step);
            SomeAlert(t) || (step.Take? && s.queued == 0)
  {
    var t := Do(c, s, step);
    assert |t.workers| == |s.workers|;
    match step {
      case Add => assert Alert(t, t.workers[k]);
      case Notify(who) => assert Alert(t, t.workers[k]);
      case Create(i) => assert Alert(t, t.workers[i]);
      case Take(i) => assert s.queued > 0 ==> Alert(t, t.workers[i]);
      case Await(i) =>
        if s.permit {
          assert Alert(t, t.workers[i]);
        } else {
          assert Alert(t, t.workers[k]);
        }
    }
  }

  lemma ReachableInv(c: Config, s: State)
    requires c.workers >= 1 && Reachable(c, s)
    ensures Inv(c, s)
  {
    hide Inv, Do, Enabled;
    var run :| IsRun(c, run) && run[|run| - 1] == s;
    InitInv(c);
    for i := 0 to |run| - 1
      invariant Inv(c, run[i])
    {
      assert Next(c, run[i], run[i + 1]);
      var step :| Enabled(c, run[i], step) && run[i + 1] == Do(c, run[i], step);
      InvKept(c, run[i], step);
    }
  }

  lemma InitInv(c: Config)
    ensures Inv(c, Initial(c))
  {
  }

  /** With any number of workers, a queued item has a notification on its way or a
      worker that is going to look. */
  lemma NeverAllAsleep(c: Config, s: State)
    requires c.workers >= 1 && Reachable(c, s) && s.queued > 0
    ensures s.adding || SomeAlert(s)
  {
    ReachableInv(c, s);
  }

  /** No item is lost, taken twice or kept beyond capacity; an item is still there while
      it is announced; and no worker sleeps beside a permit. */
  lemma ItemsConserved(c: Config, s: State)
    requires c.workers >= 1 && Reachable(c, s)
    ensures s.added == s.taken + s.queued && s.queued <= c.capacity
    ensures s.adding ==> s.queued > 0
    ensures forall i :: 0 <= i < |s.workers| && s.workers[i].Parked? ==> !s.permit
  {
    ReachableInv(c, s);
  }

  /** A worker that is going to look takes an item. */
  lemma AlertTakes(c: Config, s: State, k: nat) returns (t: State)
    requires Reachable(c, s) && s.queued > 0 && !s.adding && k < |s.workers| && Alert(s, s.workers[k])
    ensures Reachable(c, t) && t.taken == s.taken + 1 && t.added == s.added
  {
    hide Reachable;
    t := s;
    if t.workers[k].Empty? {
      t := Go(c, t, Await(k));
    }
    if !t.workers[k].Created? {
      t := Go(c, t, Create(k));
    }
    t := Go(c, t, Take(k));
  }

  /** Whatever the workers are doing, a queued item can still be taken without another
      one being added. */
  lemma ItemCanBeTaken(c: Config, s: State) returns (t: State)
    requires c.workers >= 1 && Reachable(c, s) && s.queued > 0
    ensures Reachable(c, t) && t.taken == s.taken + 1 && t.added == s.added
  {
    hide Reachable, Inv;
    t := s;
    if t.adding {
      t := Announce(c, t);
    }
    NeverAllAsleep(c, t);
    var k: nat :| k < |t.workers| && Alert(t, t.workers[k]);
    t := AlertTakes(c, t, k);
  }

  lemma Announce(c: Config, s: State) returns (t: State)
    requires Reachable(c, s) && s.adding
    ensures Reachable(c, t) && !t.adding && t.queued == s.queued && t.taken == s.taken && t.added == s.added
  {
    hide Reachable;
    if NobodyParked(s) {
      t := Go(c, s, Notify(0));
    } else {
      var i: nat :| i < |s.workers| && s.workers[i].Parked?;
      t := Go(c, s, Notify(i));
    }
  }

  // How many may sleep meanwhile

  /** A parked worker beside a queued item has a notification on its way. */
  ghost predicate NoLostItem(s: State) {
    s.queued > 0 && !NobodyParked(s) ==> s.adding
  }

  lemma ReachInitial(c: Config)
    ensures Reachable(c, Initial(c))
  {
    assert IsRun(c, [Initial(c)]);
  }

  /** All workers find the queue empty and have not yet awaited. */
  lemma AllSeeEmpty(c: Config) returns (s: State)
    ensures Reachable(c, s) && s == Initial(c).(workers := seq(c.workers, _ => Empty))
  {
    hide Reachable;
    ReachInitial(c);
    s := Initial(c);
    for i := 0 to c.workers
      invariant Reachable(c, s) && s == Initial(c).(workers := s.workers) && |s.workers| == c.workers
      invariant forall k :: 0 <= k < c.workers ==> s.workers[k] == if k < i then Empty else Busy
    {
      s := Go(c, s, Create(i));
      s := Go(c, s, Take(i));
    }
  }

  /** One permit is all that any number of items leaves to workers about to await: with
      `k` items queued, one worker wakes and all the others park. */
  lemma OneWakes(c: Config, k: nat) returns (s: State)
    requires c.workers >= 1 && 1 <= k <= c.capacity
    ensures Reachable(c, s) && s.queued == k && !s.adding && !s.permit && |s.workers| == c.workers
    ensures s.workers[0].Woken? && forall i :: 1 <= i < c.workers ==> s.workers[i].Parked?
  {
    hide Reachable;
    s := AllSeeEmpty(c);
    for j := 0 to k
      invariant Reachable(c, s) && s.queued == j && !s.adding && (s.permit <==> j > 0) && |s.workers| == c.workers
      invariant forall i :: 0 <= i < c.workers ==> s.workers[i] == Empty
    {
      s := Go(c, s, Add);
      s := Go(c, s, Notify(0));
    }
    s := Go(c, s, Await(0));
    for i := 1 to c.workers
      invariant Reachable(c, s) && s.queued == k && !s.adding && !s.permit && |s.workers| == c.workers
      invariant s.workers[0].Woken?
      invariant forall l :: 1 <= l < c.workers ==> s.workers[l] == if l < i then Parked else Empty
    {
      s := Go(c, s, Await(i));
    }
  }

  /** No run parks a worker beside an item that nobody is about to announce, if and
      only if there is at most one worker. */
  lemma NoLostItemIff(c: Config)
    requires c.capacity >= 1
    ensures (forall s :: Reachable(c, s) ==> NoLostItem(s)) <==> c.workers <= 1
  {
    hide Reachable;
    if c.workers == 1 {
      forall s | Reachable(c, s) ensures NoLostItem(s) {
        ReachableInv(c, s);
      }
    } else if c.workers == 0 {
      forall s | Reachable(c, s) ensures NoLostItem(s) {
        NoWorkers(c, s);
      }
    } else {
      var s := OneWakes(c, 1);
      assert s.workers[1].Parked?;
    }
  }

  lemma NoWorkers(c: Config, s: State)
    requires c.workers == 0 && Reachable(c, s)
    ensures s.workers == []
  {
    var run: seq<State> :| IsRun(c, run) && run[|run| - 1] == s;
    for i := 0 to |run| - 1
      invariant run[i].workers == []
    {
      assert Next(c, run[i], run[i + 1]);
    }
  }
}
