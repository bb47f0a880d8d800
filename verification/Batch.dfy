/** src/fluent-concurrency/src/batch.rs: a supervised batch of tasks. The join set is
    a set of running tasks and a table of finished ones; `Finish` is the runtime's
    move, and `Poll` takes finished tasks in any order. Aborts race completions, so a
    task marked for cancellation may still finish in any way. */
module Batches {
  import opened Sequences
  import opened Reachability
  import opened Listings
  import opened DependencyGraphs

  datatype Outcome = Succeeded | TimedOut | Errored | Panicked | Aborted

  datatype Reason = Timeout | DependencyFailed | AbortedOutside

  datatype Summary = Summary(completed: seq<int>, panicked: seq<int>, failed: seq<int>, cancelled: seq<(int, Reason)>)

  const EMPTY := Summary([], [], [], [])

  // Accounting

  function Names(l: seq<(int, Reason)>): seq<int> {
    if l == [] then [] else Names(l[..|l| - 1]) + [l[|l| - 1].0]
  }

  /** How often each task is reported, over all four lists. */
  ghost function Tally(s: Summary): multiset<int> {
    multiset(s.completed) + multiset(s.panicked) + multiset(s.failed) + multiset(Names(s.cancelled))
  }

  ghost predicate InFlight(taskNames: map<int, int>, n: int) {
    exists id :: id in taskNames && taskNames[id] == n
  }

  /** Every registered task is in flight once, or reported once, and nothing else is. */
  ghost predicate Accounted(taskNames: map<int, int>, tally: multiset<int>, nodes: seq<int>) {
    && (forall i, j :: i in taskNames && j in taskNames && taskNames[i] == taskNames[j] ==> i == j)
    && (forall n :: tally[n] + (if InFlight(taskNames, n) then 1 else 0) == if n in nodes then 1 else 0)
  }

  lemma SpawnAccounted(taskNames: map<int, int>, tally: multiset<int>, nodes: seq<int>, id: int, n: int)
    requires Accounted(taskNames, tally, nodes) && id !in taskNames && n !in nodes
    ensures Accounted(taskNames[id := n], tally, nodes + [n])
  {
    var names := taskNames[id := n];
    assert !InFlight(taskNames, n);
    forall m ensures InFlight(names, m) <==> InFlight(taskNames, m) || m == n {
      assert names[id] == n;
      if InFlight(taskNames, m) {
        var k :| k in taskNames && taskNames[k] == m;
        assert names[k] == m;
      }
    }
  }

  lemma ReportAccounted(taskNames: map<int, int>, tally: multiset<int>, nodes: seq<int>, id: int)
    requires Accounted(taskNames, tally, nodes) && id in taskNames
    ensures Accounted(taskNames - {id}, tally + multiset{taskNames[id]}, nodes)
  {
    var names, n := taskNames - {id}, taskNames[id];
    assert InFlight(taskNames, n);
    forall m ensures InFlight(names, m) <==> InFlight(taskNames, m) && m != n {
      if InFlight(taskNames, m) && m != n {
        var k :| k in taskNames && taskNames[k] == m;
        assert k in names && names[k] == m;
      }
    }
  }

  /** With nothing in flight, the summary reports each registered task exactly once. */
  lemma AllReportedOnce(taskNames: map<int, int>, tally: multiset<int>, nodes: seq<int>)
    requires Accounted(taskNames, tally, nodes) && taskNames.Keys == {}
    ensures forall n :: tally[n] == if n in nodes then 1 else 0
  {
  }

  // Causes

  /** Tasks reported failed, panicked or timed out. */
  ghost function Troubled(s: Summary): set<int> {
    Elems(s.failed) + Elems(s.panicked) + (set e | e in s.cancelled && e.1.Timeout? :: e.0)
  }

  /** Some task in trouble is a transitive prerequisite of `x`. */
  ghost predicate Caused(edges: set<(int, int)>, troubled: set<int>, x: int) {
    exists y :: y in troubled && y != x && Reaches(edges, y, x)
  }

  ghost predicate AllCaused(edges: set<(int, int)>, troubled: set<int>, xs: set<int>) {
    forall x :: x in xs ==> Caused(edges, troubled, x)
  }

  ghost function Blamed(s: Summary): set<int> {
    set e | e in s.cancelled && e.1.DependencyFailed? :: e.0
  }

  /** Marked tasks and reported dependency failures have a cause. */
  ghost predicate Explained(edges: set<(int, int)>, s: Summary, marked: set<int>) {
    AllCaused(edges, Troubled(s), marked + Blamed(s))
  }

  lemma CausedMonotone(edges: set<(int, int)>, edges': set<(int, int)>, t: set<int>, t': set<int>, xs: set<int>)
    requires AllCaused(edges, t, xs) && edges <= edges' && t <= t'
    ensures AllCaused(edges', t', xs)
  {
    forall x | x in xs ensures Caused(edges', t', x) {
      var y :| y in t && y != x && Reaches(edges, y, x);
      ReachesMonotone(edges, edges', y, x);
    }
  }

  lemma AddKeepsFeeds(g: Graph, node: int, deps: seq<int>, offers: seq<int>)
    requires WellFormed(g) && node !in g.nodes
    ensures FeedEdges(g) <= FeedEdges(Add(g, node, deps, offers))
  {
  }

  /** One more report. */
  function WithReport(s: Summary, n: int, o: Outcome, wasMarked: bool): Summary {
    match o
    case Succeeded => s.(completed := s.completed + [n])
    case TimedOut => s.(cancelled := s.cancelled + [(n, Timeout)])
    case Errored => s.(failed := s.failed + [n])
    case Panicked => s.(panicked := s.panicked + [n])
    case Aborted => s.(cancelled := s.cancelled + [(n, if wasMarked then DependencyFailed else AbortedOutside)])
  }

  predicate Trouble(o: Outcome) {
    o.TimedOut? || o.Errored? || o.Panicked?
  }

  lemma ReportTally(s: Summary, n: int, o: Outcome, wasMarked: bool)
    ensures Tally(WithReport(s, n, o, wasMarked)) == Tally(s) + multiset{n}
  {
  }

  lemma ReportCauses(s: Summary, n: int, o: Outcome, wasMarked: bool)
    ensures Troubled(s) + (if Trouble(o) then {n} else {}) == Troubled(WithReport(s, n, o, wasMarked))
    ensures Blamed(WithReport(s, n, o, wasMarked)) == Blamed(s) + if o.Aborted? && wasMarked then {n} else {}
  {
  }

  lemma ReportExplained(edges: set<(int, int)>, s: Summary, marked: set<int>, n: int, o: Outcome, more: set<int>)
    requires Explained(edges, s, marked)
    requires forall x :: x in more ==> Trouble(o) && x != n && Reaches(edges, n, x)
    ensures var wasMarked := n in marked;
            Explained(edges, WithReport(s, n, o, wasMarked), if o.Aborted? then marked - {n} else marked + more)
  {
    hide Reaches;
    var s' := WithReport(s, n, o, n in marked);
    ReportCauses(s, n, o, n in marked);
    CausedMonotone(edges, edges, Troubled(s), Troubled(s'), marked + Blamed(s));
    forall x | x in more ensures Caused(edges, Troubled(s'), x) {
      assert n in Troubled(s');
    }
  }

  // Which list a report is in

  /** The outcome each task was joined with, and whether it was marked at that moment. */
  type Journal = map<int, (Outcome, bool)>

  /** The list names exactly the tasks joined with that outcome. */
  ghost predicate ListedAs(l: seq<int>, log: Journal, o: Outcome) {
    forall n :: n in l <==> n in log && log[n].0 == o
  }

  /** The reason is given exactly for the tasks joined with that outcome and mark. */
  ghost predicate CancelledFor(l: seq<(int, Reason)>, log: Journal, r: Reason, o: Outcome, marks: set<bool>) {
    forall n :: (n, r) in l <==> n in log && log[n].0 == o && log[n].1 in marks
  }

  ghost predicate Filed(log: Journal, s: Summary) {
    && ListedAs(s.completed, log, Succeeded)
    && ListedAs(s.failed, log, Errored)
    && ListedAs(s.panicked, log, Panicked)
    && CancelledFor(s.cancelled, log, Timeout, TimedOut, {true, false})
    && CancelledFor(s.cancelled, log, DependencyFailed, Aborted, {true})
    && CancelledFor(s.cancelled, log, AbortedOutside, Aborted, {false})
  }

  lemma {:induction false} NamesHold(l: seq<(int, Reason)>, e: (int, Reason))
    requires e in l
    ensures e.0 in Names(l)
  {
    var front, last := l[..|l| - 1], l[|l| - 1];
    assert l == front + [last];
    if e != last {
      NamesHold(front, e);
    }
  }

  /** What is joined is reported. */
  lemma FiledTally(log: Journal, s: Summary, n: int)
    requires Filed(log, s) && n in log
    ensures Tally(s)[n] > 0
  {
    match log[n].0
    case Succeeded =>
      assert n in s.completed;
    case Errored =>
      assert n in s.failed;
    case Panicked =>
      assert n in s.panicked;
    case TimedOut =>
      assert log[n].1 in {true, false};
      NamesHold(s.cancelled, (n, Timeout));
    case Aborted =>
      NamesHold(s.cancelled, (n, if log[n].1 then DependencyFailed else AbortedOutside));
  }

  lemma {:induction false} NameGiven(l: seq<(int, Reason)>, n: int) returns (e: (int, Reason))
    requires n in Names(l)
    ensures e in l && e.0 == n
  {
    var front, last := l[..|l| - 1], l[|l| - 1];
    if last.0 == n {
      return last;
    }
    e := NameGiven(front, n);
  }

  /** What is reported is joined. */
  lemma TallyFiled(log: Journal, s: Summary, n: int)
    requires Filed(log, s) && Tally(s)[n] > 0
    ensures n in log
  {
    if n in Names(s.cancelled) {
      var e := NameGiven(s.cancelled, n);
      match e.1
      case Timeout =>
        assert (n, Timeout) in s.cancelled;
      case DependencyFailed =>
        assert (n, DependencyFailed) in s.cancelled;
      case AbortedOutside =>
        assert (n, AbortedOutside) in s.cancelled;
    } else {
      assert n in s.completed || n in s.failed || n in s.panicked;
    }
  }

  /** A summary that reports every task once files them all. */
  lemma FiledAll(log: Journal, s: Summary, nodes: seq<int>)
    requires Filed(log, s) && ReportsEachOnce(nodes, s)
    ensures log.Keys == Elems(nodes)
  {
    hide Filed, Tally;
    forall n ensures n in log <==> n in nodes {
      if n in log {
        FiledTally(log, s, n);
      }
      if n in nodes {
        TallyFiled(log, s, n);
      }
    }
  }

  lemma NotYetJoined(names: map<int, int>, nodes: seq<int>, log: Journal, s: Summary, id: int)
    requires Accounted(names, Tally(s), nodes) && Filed(log, s) && id in names
    ensures names[id] !in log
  {
    hide Tally, Filed;
    assert InFlight(names, names[id]);
    if names[id] in log {
      FiledTally(log, s, names[id]);
    }
  }

  lemma ListedMore(l: seq<int>, log: Journal, o: Outcome, n: int, e: (Outcome, bool))
    requires ListedAs(l, log, o) && n !in log
    ensures ListedAs(if o == e.0 then l + [n] else l, log[n := e], o)
  {
  }

  lemma CancelledMore(l: seq<(int, Reason)>, log: Journal, r: Reason, o: Outcome, marks: set<bool>, n: int,
                      e: (Outcome, bool), r': Option<Reason>)
    requires CancelledFor(l, log, r, o, marks) && n !in log
    requires r' == Some(r) <==> e.0 == o && e.1 in marks
    ensures CancelledFor(if r'.Some? then l + [(n, r'.value)] else l, log[n := e], r, o, marks)
  {
  }

  lemma ReportFiled(log: Journal, s: Summary, n: int, o: Outcome, mark: bool)
    requires Filed(log, s) && n !in log
    ensures Filed(log[n := (o, mark)], WithReport(s, n, o, mark))
  {
    hide ListedAs, CancelledFor;
    var e := (o, mark);
    var r := match o
      case TimedOut => Some(Timeout)
      case Aborted => Some(if mark then DependencyFailed else AbortedOutside)
      case _ => None;
    ListedMore(s.completed, log, Succeeded, n, e);
    ListedMore(s.failed, log, Errored, n, e);
    ListedMore(s.panicked, log, Panicked, n, e);
    CancelledMore(s.cancelled, log, Timeout, TimedOut, {true, false}, n, e, r);
    CancelledMore(s.cancelled, log, DependencyFailed, Aborted, {true}, n, e, r);
    CancelledMore(s.cancelled, log, AbortedOutside, Aborted, {false}, n, e, r);
  }

  /** The join set holds all tasks in flight, each running or ended. */
  ghost predicate JoinSetOk(tasks: set<int>, running: set<int>, ended: set<int>, active: nat, nextId: int) {
    && tasks == running + ended
    && running !! ended
    && active == |tasks|
    && (forall id :: id in tasks ==> id < nextId)
  }

  lemma SpawnJoinSet(tasks: set<int>, running: set<int>, ended: set<int>, active: nat, nextId: int)
    requires JoinSetOk(tasks, running, ended, active, nextId)
    ensures nextId !in tasks
    ensures JoinSetOk(tasks + {nextId}, running + {nextId}, ended, active + 1, nextId + 1)
  {
  }

  lemma FinishJoinSet(tasks: set<int>, running: set<int>, ended: set<int>, active: nat, nextId: int, id: int)
    requires JoinSetOk(tasks, running, ended, active, nextId) && id in running
    ensures JoinSetOk(tasks, running - {id}, ended + {id}, active, nextId)
  {
  }

  lemma TakeJoinSet(tasks: set<int>, running: set<int>, ended: set<int>, active: nat, nextId: int, id: int)
    requires JoinSetOk(tasks, running, ended, active, nextId) && id in ended
    ensures id in tasks && active >= 1
    ensures JoinSetOk(tasks - {id}, running, ended - {id}, active - 1, nextId)
  {
  }

  lemma KeysOfUpdate<T>(m: map<int, T>, k: int, v: T)
    ensures m[k := v].Keys == m.Keys + {k}
  {
  }

  lemma KeysOfRemoval<T>(m: map<int, T>, k: int)
    ensures (m - {k}).Keys == m.Keys - {k}
  {
  }

  /** The books of a batch: the join set is consistent, and until the summary is
      handed over every task is accounted for and every cancellation explained. */
  ghost predicate Good(g: Graph, names: map<int, int>, running: set<int>, finished: map<int, Outcome>, active: nat,
                       nextId: int,
                       s: Summary, marked: set<int>, done: bool)
  {
    && JoinSetOk(names.Keys, running, finished.Keys, active, nextId)
    && (!done ==> Accounted(names, Tally(s), g.nodes) && Explained(FeedEdges(g), s, marked))
  }

  /** Every task in flight is registered, and its name has the handle to abort it; a
      handle to a task in flight is under the name of that task. */
  ghost predicate Handled(names: map<int, int>, handles: map<int, int>, nodes: seq<int>, nextId: int) {
    && (forall id :: id in names ==> names[id] in nodes && names[id] in handles && handles[names[id]] == id)
    && (forall n :: n in handles ==> handles[n] < nextId && (handles[n] in names ==> names[handles[n]] == n))
  }

  lemma HandledSpawn(names: map<int, int>, handles: map<int, int>, nodes: seq<int>, id: int, name: int)
    requires Handled(names, handles, nodes, id) && name !in nodes
    ensures Handled(names[id := name], handles[name := id], nodes + [name], id + 1)
  {
  }

  /** The names of the running tasks that depend on `name`, directly or not. */
  ghost function Dependents(edges: set<(int, int)>, names: map<int, int>, running: set<int>, name: int): set<int> {
    set id | id in running && id in names && names[id] != name && Reaches(edges, name, names[id]) :: names[id]
  }

  /** Going through the names with their handles finds exactly the running tasks. */
  lemma CancelFinds(names: map<int, int>, handles: map<int, int>, nodes: seq<int>, nextId: int, running: set<int>,
                    edges: set<(int, int)>, name: int, toCancel: seq<int>, more: set<int>)
    requires Handled(names, handles, nodes, nextId) && running <= names.Keys
    requires forall x :: x in toCancel <==> x != name && Reaches(edges, name, x)
    requires forall x :: x in more <==> x in toCancel && x in handles && handles[x] in running
    ensures more == Dependents(edges, names, running, name)
  {
    hide Reaches;
    forall x | x in more ensures x in Dependents(edges, names, running, name) {
      assert names[handles[x]] == x;
    }
  }

  lemma HandledJoin(names: map<int, int>, handles: map<int, int>, nodes: seq<int>, nextId: int, id: int)
    requires Handled(names, handles, nodes, nextId)
    ensures Handled(names - {id}, handles, nodes, nextId)
  {
  }

  lemma DependentsReached(edges: set<(int, int)>, names: map<int, int>, running: set<int>, name: int)
    ensures forall x :: x in Dependents(edges, names, running, name) ==> x != name && Reaches(edges, name, x)
  {
  }

  lemma GoodNotJoined(g: Graph, names: map<int, int>, running: set<int>, finished: map<int, Outcome>, active: nat,
                      nextId: int, s: Summary, marked: set<int>, id: int, log: Journal)
    requires Good(g, names, running, finished, active, nextId, s, marked, false) && id in names && Filed(log, s)
    ensures names[id] !in log
  {
    hide Accounted, Filed, Tally, Explained;
    NotYetJoined(names, g.nodes, log, s, id);
  }

  // What one poll does

  /** A task that had ended before the poll and was joined by it. */
  ghost predicate Taken(names: map<int, int>, was: map<int, Outcome>, now: map<int, Outcome>, id: int) {
    id in names && id in was && id !in now
  }

  /** Each task taken is entered with the outcome it ended with and the mark it had
      before the poll; nothing else is entered, and no entry changes. */
  ghost predicate Entered(names: map<int, int>, was: map<int, Outcome>, now: map<int, Outcome>, marks: set<int>,
                          log: Journal, log': Journal)
  {
    && (forall id :: Taken(names, was, now, id) ==>
          names[id] in log' && log'[names[id]] == (was[id], names[id] in marks))
    && (forall n :: n in log ==> n in log' && log'[n] == log[n])
    && (forall n :: n in log' && n !in log ==> exists id :: Taken(names, was, now, id) && names[id] == n)
  }

  /** An aborted task was taken, which takes its mark away. */
  ghost predicate Unmarks(names: map<int, int>, was: map<int, Outcome>, now: map<int, Outcome>, x: int) {
    exists id :: Taken(names, was, now, id) && was[id] == Aborted && names[id] == x
  }

  /** A task that timed out, failed or panicked was taken, on which `x`, still
      running, depends. */
  ghost predicate Marks(edges: set<(int, int)>, names: map<int, int>, running: set<int>, was: map<int, Outcome>,
                        now: map<int, Outcome>, x: int)
  {
    exists id :: Taken(names, was, now, id) && was[id] in {TimedOut, Errored, Panicked} &&
                 x in Dependents(edges, names, running, names[id])
  }

  ghost predicate Remarked(edges: set<(int, int)>, names: map<int, int>, running: set<int>, was: map<int, Outcome>,
                           now: map<int, Outcome>, marks: set<int>, marks': set<int>)
  {
    forall x :: x in marks' <==>
      (x in marks && !Unmarks(names, was, now, x)) || Marks(edges, names, running, was, now, x)
  }

  /** The state in the middle of a poll against that before it. */
  ghost predicate Polled(edges: set<(int, int)>, names: map<int, int>, running: set<int>, was: map<int, Outcome>,
                         marks: set<int>, log: Journal, names': map<int, int>, now: map<int, Outcome>,
                         marks': set<int>, log': Journal)
  {
    && was.Keys <= names.Keys && running <= names.Keys && running !! was.Keys
    && (forall i, j :: i in names && j in names && names[i] == names[j] ==> i == j)
    && (forall id :: id in now ==> id in was && now[id] == was[id])
    && (forall id :: id in names' ==> id in names && names'[id] == names[id])
    && running <= names'.Keys && now.Keys <= names'.Keys
    && Entered(names, was, now, marks, log, log')
    && Remarked(edges, names, running, was, now, marks, marks')
  }

  lemma PolledStarts(edges: set<(int, int)>, names: map<int, int>, running: set<int>, was: map<int, Outcome>,
                     marks: set<int>, log: Journal, handles: map<int, int>, nodes: seq<int>, nextId: int)
    requires was.Keys <= names.Keys && running <= names.Keys && running !! was.Keys
    requires Handled(names, handles, nodes, nextId)
    ensures Polled(edges, names, running, was, marks, log, names, was, marks, log)
  {
  }

  lemma PolledEnds(edges: set<(int, int)>, names: map<int, int>, running: set<int>, was: map<int, Outcome>,
                   marks: set<int>, log: Journal, names': map<int, int>, now: map<int, Outcome>,
                   marks': set<int>, log': Journal)
    requires Polled(edges, names, running, was, marks, log, names', now, marks', log')
    ensures Entered(names, was, now, marks, log, log')
    ensures Remarked(edges, names, running, was, now, marks, marks')
    ensures forall id :: id in now ==> id in was && now[id] == was[id]
  {
  }

  lemma TakenMore(names: map<int, int>, was: map<int, Outcome>, now: map<int, Outcome>, id: int)
    requires id in now && id in was && id in names
    ensures forall i :: Taken(names, was, now - {id}, i) <==> Taken(names, was, now, i) || i == id
  {
  }

  lemma EnteredMore(names: map<int, int>, was: map<int, Outcome>, now: map<int, Outcome>, marks: set<int>,
                    log: Journal, log': Journal, id: int)
    requires Entered(names, was, now, marks, log, log') && id in now && id in was && id in names
    requires names[id] !in log'
    ensures Entered(names, was, now - {id}, marks, log, log'[names[id] := (was[id], names[id] in marks)])
  {
    TakenMore(names, was, now, id);
    hide Taken;
    var next := log'[names[id] := (was[id], names[id] in marks)];
    forall n | n in next && n !in log ensures exists i :: Taken(names, was, now - {id}, i) && names[i] == n {
      if n == names[id] {
        assert Taken(names, was, now - {id}, id);
      } else {
        var i :| Taken(names, was, now, i) && names[i] == n;
        assert Taken(names, was, now - {id}, i);
      }
    }
  }

  lemma UnmarksMore(names: map<int, int>, was: map<int, Outcome>, now: map<int, Outcome>, id: int, x: int)
    requires id in now && id in was && id in names
    ensures Unmarks(names, was, now - {id}, x) <==>
            Unmarks(names, was, now, x) || (was[id] == Aborted && names[id] == x)
  {
    TakenMore(names, was, now, id);
    hide Taken;
    if Unmarks(names, was, now, x) {
      var i :| Taken(names, was, now, i) && was[i] == Aborted && names[i] == x;
      assert Taken(names, was, now - {id}, i);
    }
    assert Taken(names, was, now - {id}, id);
  }

  lemma MarksMore(edges: set<(int, int)>, names: map<int, int>, running: set<int>, was: map<int, Outcome>,
                  now: map<int, Outcome>, id: int, x: int)
    requires id in now && id in was && id in names
    ensures Marks(edges, names, running, was, now - {id}, x) <==>
            || Marks(edges, names, running, was, now, x)
            || (Trouble(was[id]) && x in Dependents(edges, names, running, names[id]))
  {
    TakenMore(names, was, now, id);
    hide Taken, Dependents;
    if Marks(edges, names, running, was, now, x) {
      var i :| Taken(names, was, now, i) && was[i] in {TimedOut, Errored, Panicked} &&
               x in Dependents(edges, names, running, names[i]);
      assert Taken(names, was, now - {id}, i);
    }
    assert Taken(names, was, now - {id}, id);
  }

  /** A poll marks only tasks that are running. */
  lemma MarksRunning(edges: set<(int, int)>, names: map<int, int>, running: set<int>, was: map<int, Outcome>,
                     now: map<int, Outcome>, id: int)
    requires id in names && id !in running
    requires forall i, j :: i in names && j in names && names[i] == names[j] ==> i == j
    ensures !Marks(edges, names, running, was, now, names[id])
  {
    hide Reaches;
    forall n ensures names[id] !in Dependents(edges, names, running, n) {
    }
    hide Dependents;
  }

  /** What one join does to the marks. */
  ghost function MarksAfter(edges: set<(int, int)>, names: map<int, int>, running: set<int>, marks: set<int>, name: int,
                            o: Outcome): set<int>
  {
    if Trouble(o) then marks + Dependents(edges, names, running, name)
    else if o == Aborted then marks - {name} else marks
  }

  lemma RemarkedMore(edges: set<(int, int)>, names: map<int, int>, running: set<int>, was: map<int, Outcome>,
                     now: map<int, Outcome>, marks: set<int>, marks': set<int>, id: int)
    requires id in names && id in now && id in was && id !in running
    requires forall i, j :: i in names && j in names && names[i] == names[j] ==> i == j
    requires Remarked(edges, names, running, was, now, marks, marks')
    ensures Remarked(edges, names, running, was, now - {id}, marks,
                     MarksAfter(edges, names, running, marks', names[id], was[id]))
  {
    MarksRunning(edges, names, running, was, now, id);
    hide Dependents, Unmarks, Marks;
    var next := MarksAfter(edges, names, running, marks', names[id], was[id]);
    forall x ensures x in next <==>
      (x in marks && !Unmarks(names, was, now - {id}, x)) || Marks(edges, names, running, was, now - {id}, x)
    {
      UnmarksMore(names, was, now, id, x);
      MarksMore(edges, names, running, was, now, id, x);
    }
  }

  /** A task that has ended keeps its mark, or the lack of one, until it is taken. */
  lemma MarkedAsBefore(edges: set<(int, int)>, names: map<int, int>, running: set<int>, was: map<int, Outcome>,
                       now: map<int, Outcome>, marks: set<int>, marks': set<int>, id: int)
    requires id in names && id in now && id !in running
    requires forall i, j :: i in names && j in names && names[i] == names[j] ==> i == j
    requires Remarked(edges, names, running, was, now, marks, marks')
    ensures names[id] in marks' <==> names[id] in marks
  {
    MarksRunning(edges, names, running, was, now, id);
    hide Marks;
  }

  lemma DependentsSame(edges: set<(int, int)>, names: map<int, int>, names': map<int, int>, running: set<int>,
                       name: int)
    requires running <= names.Keys && running <= names'.Keys && forall id :: id in running ==> names'[id] == names[id]
    ensures Dependents(edges, names, running, name) == Dependents(edges, names', running, name)
  {
    hide Reaches;
  }

  lemma PolledMore(edges: set<(int, int)>, names: map<int, int>, running: set<int>, was: map<int, Outcome>,
                   marks: set<int>, log: Journal, names': map<int, int>, now: map<int, Outcome>,
                   marks': set<int>, log': Journal, id: int)
    requires Polled(edges, names, running, was, marks, log, names', now, marks', log') && id in now && id in names'
    requires names'[id] !in log'
    ensures Polled(edges, names, running, was, marks, log, names' - {id}, now - {id},
                   MarksAfter(edges, names', running, marks', names'[id], now[id]),
                   log'[names'[id] := (now[id], names'[id] in marks')])
  {
    assert id in names && id in was && names'[id] == names[id] && now[id] == was[id] && id !in running;
    MarkedAsBefore(edges, names, running, was, now, marks, marks', id);
    EnteredMore(names, was, now, marks, log, log', id);
    RemarkedMore(edges, names, running, was, now, marks, marks', id);
    DependentsSame(edges, names, names', running, names[id]);
    hide Entered, Remarked, Dependents;
  }

  lemma GoodSpawn(g: Graph, names: map<int, int>, running: set<int>, finished: map<int, Outcome>, active: nat,
                  nextId: int,
                  s: Summary, marked: set<int>, done: bool, name: int, deps: seq<int>, offers: seq<int>)
    requires Good(g, names, running, finished, active, nextId, s, marked, done) && WellFormed(g) && name !in g.nodes
    ensures Good(Add(g, name, deps, offers), names[nextId := name], running + {nextId}, finished, active + 1,
                 nextId + 1, s, marked, done)
  {
    hide Accounted, Explained, FeedEdges, Tally, JoinSetOk, WellFormed;
    SpawnJoinSet(names.Keys, running, finished.Keys, active, nextId);
    KeysOfUpdate(names, nextId, name);
    if !done {
      AddKeepsFeeds(g, name, deps, offers);
      SpawnAccounted(names, Tally(s), g.nodes, nextId, name);
      ExplainedMonotone(FeedEdges(g), FeedEdges(Add(g, name, deps, offers)), s, marked);
    }
  }

  lemma GoodApart(g: Graph, names: map<int, int>, running: set<int>, finished: map<int, Outcome>, active: nat,
                  nextId: int, s: Summary, marked: set<int>, done: bool)
    requires Good(g, names, running, finished, active, nextId, s, marked, done)
    ensures running <= names.Keys && finished.Keys <= names.Keys && running !! finished.Keys
  {
  }

  lemma GoodFinish(g: Graph, names: map<int, int>, running: set<int>, finished: map<int, Outcome>, active: nat,
                   nextId: int,
                   s: Summary, marked: set<int>, done: bool, id: int, o: Outcome)
    requires Good(g, names, running, finished, active, nextId, s, marked, done) && id in running
    ensures Good(g, names, running - {id}, finished[id := o], active, nextId, s, marked, done)
  {
    hide Accounted, Explained, FeedEdges, Tally, JoinSetOk;
    FinishJoinSet(names.Keys, running, finished.Keys, active, nextId, id);
    KeysOfUpdate(finished, id, o);
  }

  lemma GoodTask(g: Graph, names: map<int, int>, running: set<int>, finished: map<int, Outcome>, active: nat,
                 nextId: int,
                 s: Summary, marked: set<int>, done: bool, id: int)
    requires Good(g, names, running, finished, active, nextId, s, marked, done) && id in finished
    ensures id in names && active >= 1 && running <= names.Keys
  {
  }

  lemma GoodJoin(g: Graph, names: map<int, int>, running: set<int>, finished: map<int, Outcome>, active: nat,
                 nextId: int,
                 s: Summary, marked: set<int>, id: int, more: set<int>)
    requires Good(g, names, running, finished, active, nextId, s, marked, false) && id in finished && id in names
    requires active >= 1
    requires forall x :: x in more ==> Trouble(finished[id]) && x != names[id] && Reaches(FeedEdges(g), names[id], x)
    ensures Good(g, names - {id}, running, finished - {id}, active - 1, nextId,
                 WithReport(s, names[id], finished[id], names[id] in marked),
                 if finished[id].Aborted? then marked - {names[id]} else marked + more, false)
  {
    hide Accounted, Explained, FeedEdges, Tally, JoinSetOk, Reaches, WithReport;
    TakeJoinSet(names.Keys, running, finished.Keys, active, nextId, id);
    KeysOfRemoval(names, id);
    KeysOfRemoval(finished, id);
    ReportAccounted(names, Tally(s), g.nodes, id);
    ReportTally(s, names[id], finished[id], names[id] in marked);
    ReportExplained(FeedEdges(g), s, marked, names[id], finished[id], more);
  }

  lemma GoodCount(g: Graph, names: map<int, int>, running: set<int>, finished: map<int, Outcome>, active: nat,
                  nextId: int,
                  s: Summary, marked: set<int>, done: bool)
    requires Good(g, names, running, finished, active, nextId, s, marked, done)
    ensures running == {} && finished.Keys == {} <==> active == 0
  {
  }

  /** The hand-over: nothing in flight means everything is reported. */
  lemma GoodHandOver(g: Graph, names: map<int, int>, running: set<int>, finished: map<int, Outcome>, active: nat,
                     nextId: int,
                     s: Summary, marked: set<int>)
    requires Good(g, names, running, finished, active, nextId, s, marked, false) && active == 0
    ensures ReportsEachOnce(g.nodes, s) && HasCauses(FeedEdges(g), s)
    ensures Good(g, names, running, finished, active, nextId, EMPTY, marked, true)
  {
    hide Tally, FeedEdges, Reaches;
    forall x | (x, DependencyFailed) in s.cancelled
      ensures exists y :: (y in s.failed || y in s.panicked || (y, Timeout) in s.cancelled) && y != x &&
                          Reaches(FeedEdges(g), y, x)
    {
      assert x in Blamed(s);
      var y :| y in Troubled(s) && y != x && Reaches(FeedEdges(g), y, x);
      assert y in s.failed || y in s.panicked || (y, Timeout) in s.cancelled;
    }
  }

  lemma GoodTaken(g: Graph, names: map<int, int>, running: set<int>, finished: map<int, Outcome>, active: nat,
                  nextId: int,
                  s: Summary, marked: set<int>)
    requires Good(g, names, running, finished, active, nextId, s, marked, true)
    ensures Good(g, names, running, finished, active, nextId, EMPTY, marked, true)
  {
  }

  /** `GoodJoin` with the handles and the journal. */
  lemma JoinKeeps(g: Graph, names: map<int, int>, handles: map<int, int>, running: set<int>,
                  finished: map<int, Outcome>, active: nat, nextId: int, s: Summary, marked: set<int>, log: Journal,
                  id: int)
    requires Good(g, names, running, finished, active, nextId, s, marked, false) && Filed(log, s)
    requires Handled(names, handles, g.nodes, nextId) && id in finished
    ensures id in names && active >= 1 && running <= names.Keys && names[id] !in log
    ensures var name, o := names[id], finished[id];
            && Good(g, names - {id}, running, finished - {id}, active - 1, nextId,
                    WithReport(s, name, o, name in marked),
                    MarksAfter(FeedEdges(g), names, running, marked, name, o), false)
            && Filed(log[name := (o, name in marked)], WithReport(s, name, o, name in marked))
            && Handled(names - {id}, handles, g.nodes, nextId)
  {
    hide Good, WithReport, Reaches, FeedEdges, Filed, Handled, Dependents;
    GoodTask(g, names, running, finished, active, nextId, s, marked, false, id);
    GoodNotJoined(g, names, running, finished, active, nextId, s, marked, id, log);
    var name, o := names[id], finished[id];
    ReportFiled(log, s, name, o, name in marked);
    var more := if Trouble(o) then Dependents(FeedEdges(g), names, running, name) else {};
    DependentsReached(FeedEdges(g), names, running, name);
    assert MarksAfter(FeedEdges(g), names, running, marked, name, o) ==
           if o.Aborted? then marked - {name} else marked + more;
    GoodJoin(g, names, running, finished, active, nextId, s, marked, id, more);
    HandledJoin(names, handles, g.nodes, nextId, id);
  }

  class SupervisedBatch {
    const pollBudget: nat
    const graph: DependencyGraph
    var taskNames: map<int, int>
    var abortHandles: map<int, int>
    var marked: set<int>
    var running: set<int>
    var finished: map<int, Outcome>
    var activeCount: nat
    var summary: Summary
    var done: bool
    var nextId: int
    ghost var log: Journal

    ghost predicate Valid()
      reads this, graph
    {
      && graph.Valid()
      && Handled(taskNames, abortHandles, graph.nodes, nextId)
      && Good(graph.View(), taskNames, running, finished, activeCount, nextId, summary, marked, done)
      && (!done ==> Filed(log, summary))
    }

    constructor (budget: nat)
      ensures Valid() && fresh(graph) && graph.nodes == [] && summary == EMPTY && !done && pollBudget == budget
      ensures log == map[] && marked == {} && running == {} && finished == map[]
    {
      pollBudget := budget;
      graph := new DependencyGraph();
      taskNames, abortHandles, marked, running, finished := map[], map[], {}, {}, map[];
      activeCount, summary, done, nextId, log := 0, EMPTY, false, 0, map[];
    }

    /** Refuses a taken name; otherwise starts its work. */
    method Register(name: int, deps: seq<int>, offers: seq<int>) returns (ok: bool)
      requires Valid()
      modifies this, graph
      ensures Valid() && summary == old(summary) && done == old(done)
      ensures ok <==> name !in old(graph.nodes)
      ensures graph.View() == if ok then Add(old(graph.View()), name, deps, offers) else old(graph.View())
      ensures taskNames == if ok then old(taskNames)[old(nextId) := name] else old(taskNames)
      ensures running == if ok then old(running) + {old(nextId)} else old(running)
      ensures abortHandles == if ok then old(abortHandles)[name := old(nextId)] else old(abortHandles)
      ensures marked == old(marked) && finished == old(finished) && log == old(log)
    {
      hide Good, Inverts, WellFormed, Handled;
      ghost var before := graph.View();
      ok := graph.Register(name, deps, offers);
      if !ok {
        return;
      }
      GoodSpawn(before, taskNames, running, finished, activeCount, nextId, summary, marked, done, name, deps, offers);
      HandledSpawn(taskNames, abortHandles, before.nodes, nextId, name);
      taskNames := taskNames[nextId := name];
      abortHandles := abortHandles[name := nextId];
      running := running + {nextId};
      activeCount := activeCount + 1;
      nextId := nextId + 1;
    }

    /** The runtime: a running task ends, in any way. */
    method Finish(id: int, o: Outcome)
      requires Valid() && id in running
      modifies this`running, this`finished
      ensures Valid() && running == old(running) - {id} && finished == old(finished)[id := o]
    {
      hide Good, Inverts, WellFormed;
      GoodFinish(graph.View(), taskNames, running, finished, activeCount, nextId, summary, marked, done, id, o);
      running := running - {id};
      finished := finished[id := o];
    }

    /** Mark every transitive dependent that is still running, and nothing else. */
    method CancelDependentsOf(name: int)
      requires graph.Valid() && Handled(taskNames, abortHandles, graph.nodes, nextId) && running <= taskNames.Keys
      modifies this`marked
      ensures marked == old(marked) + Dependents(FeedEdges(graph.View()), taskNames, running, name)
    {
      hide Reaches, FeedEdges, Lists, Handled, Dependents;
      ghost var more: set<int> := {};
      var toCancel := graph.DependentsOf(name);
      for i := 0 to |toCancel|
        invariant marked == old(marked) + more
        invariant forall x :: x in more <==> x in toCancel[..i] && x in abortHandles && abortHandles[x] in running
      {
        var task := toCancel[i];
        assert toCancel[..i + 1] == toCancel[..i] + [task];
        if task in abortHandles && abortHandles[task] in running {
          marked := marked + {task};
          more := more + {task};
        }
      }
      assert toCancel[..|toCancel|] == toCancel;
      CancelFinds(taskNames, abortHandles, graph.nodes, nextId, running, FeedEdges(graph.View()), name, toCancel, more);
    }

    /** Take one finished task: exactly one report, and its dependents are marked
        when it is in trouble. */
    method Join(id: int)
      requires Valid() && !done && id in finished
      modifies this
      ensures Valid() && !done && graph.View() == old(graph.View())
      ensures finished == old(finished) - {id} && activeCount == old(activeCount) - 1 && running == old(running)
      ensures old(id in taskNames) && taskNames == old(taskNames) - {id}
      ensures summary == WithReport(old(summary), old(taskNames[id]), old(finished[id]), old(taskNames[id] in marked))
      ensures old(taskNames[id]) !in old(log)
      ensures log == old(log)[old(taskNames[id]) := (old(finished[id]), old(taskNames[id] in marked))]
      ensures marked == MarksAfter(FeedEdges(graph.View()), old(taskNames), running, old(marked), old(taskNames[id]),
                                   old(finished[id]))
      ensures abortHandles == old(abortHandles) && nextId == old(nextId)
    {
      hide Good, Inverts, WellFormed, WithReport, Reaches, FeedEdges, Filed, Handled, Dependents;
      JoinKeeps(graph.View(), taskNames, abortHandles, running, finished, activeCount, nextId, summary, marked, log,
                id);
      var name, o := taskNames[id], finished[id];
      var next := WithReport(summary, name, o, name in marked);
      ghost var log' := log[name := (o, name in marked)];
      if Trouble(o) {
        CancelDependentsOf(name);
      } else if o.Aborted? {
        marked := marked - {name};
      }
      taskNames, finished, activeCount, summary, log := taskNames - {id}, finished - {id}, activeCount - 1, next, log';
    }

    /** `poll`: ready only with the complete summary. */
    method Poll() returns (r: Option<Summary>)
      requires Valid()
      modifies this
      ensures Valid() && graph.View() == old(graph.View())
      ensures !old(done) && r.Some? ==>
                done && ReportsEachOnce(graph.nodes, r.value) && HasCauses(FeedEdges(graph.View()), r.value)
      // Each list of a summary handed over holds exactly the tasks with its outcome.
      ensures !old(done) && r.Some? ==> log.Keys == Elems(graph.nodes) && Filed(log, r.value)
      ensures !old(done) ==> Entered(old(taskNames), old(finished), finished, old(marked), old(log), log)
      ensures !old(done) ==>
                Remarked(FeedEdges(graph.View()), old(taskNames), running, old(finished), finished, old(marked), marked)
      ensures old(done) ==> r == Some(old(summary)) && summary == EMPTY
      ensures old(done) ==> finished == old(finished) && marked == old(marked) && log == old(log)
      ensures r.None? ==> !done
      ensures !old(done) && old(activeCount) == 0 ==> r.Some?
      ensures activeCount <= old(activeCount) && running == old(running)
      ensures pollBudget >= 1 ==> old(activeCount) - pollBudget <= activeCount
    {
      hide Good, Inverts, WellFormed, FeedEdges, ReportsEachOnce, HasCauses, WithReport, Filed, Entered, Remarked,
           MarksAfter, Handled, Polled;
      ghost var edges, names, was := FeedEdges(graph.View()), taskNames, finished;
      if done {
        GoodTaken(graph.View(), taskNames, running, finished, activeCount, nextId, summary, marked);
        r := Some(summary);
        summary := EMPTY;
        return;
      }
      var budget := pollBudget;
      GoodApart(graph.View(), taskNames, running, finished, activeCount, nextId, summary, marked, done);
      PolledStarts(edges, names, running, was, marked, log, abortHandles, graph.nodes, nextId);
      while true
        invariant Valid() && !done && graph.View() == old(graph.View())
        invariant activeCount <= old(activeCount) && running == old(running)
        invariant Polled(edges, names, running, was, old(marked), old(log), taskNames, finished, marked, log)
        invariant pollBudget >= 1 ==>
                    1 <= budget <= pollBudget && activeCount == old(activeCount) - (pollBudget - budget)
        decreases activeCount
      {
        GoodCount(graph.View(), taskNames, running, finished, activeCount, nextId, summary, marked, done);
        PolledEnds(edges, names, running, was, old(marked), old(log), taskNames, finished, marked, log);
        if running == {} && finished.Keys == {} {
          break;
        }
        var pending: bool := *;
        if finished.Keys == {} || pending {
          assert activeCount != 0;  // a pending join set is not empty
          return None;
        }
        ghost var w := Inhabited(finished.Keys);
        var id :| id in finished;
        ghost var names', now, marked', log' := taskNames, finished, marked, log;
        Join(id);
        PolledMore(edges, names, running, was, old(marked), old(log), names', now, marked', log', id);
        PolledEnds(edges, names, running, was, old(marked), old(log), taskNames, finished, marked, log);
        budget := if budget == 0 then USIZE_MAX else budget - 1;
        if budget == 0 {
          return None;
        }
        if activeCount == 0 {
          break;
        }
      }
      r := HandOver();
    }

    method HandOver() returns (r: Option<Summary>)
      requires Valid() && !done && activeCount == 0
      modifies this`summary, this`done
      ensures Valid() && done && r == Some(old(summary)) && summary == EMPTY
      ensures ReportsEachOnce(graph.nodes, r.value) && HasCauses(FeedEdges(graph.View()), r.value)
      ensures log.Keys == Elems(graph.nodes) && Filed(log, r.value)
    {
      hide Good, Inverts, WellFormed, FeedEdges, ReportsEachOnce, HasCauses, Filed, Handled;
      GoodHandOver(graph.View(), taskNames, running, finished, activeCount, nextId, summary, marked);
      FiledAll(log, summary, graph.nodes);
      r := Some(summary);
      summary := EMPTY;
      done := true;
    }
  }

  /** Each registered task is in exactly one of the four lists, once. */
  ghost predicate ReportsEachOnce(nodes: seq<int>, s: Summary) {
    forall n :: Tally(s)[n] == if n in nodes then 1 else 0
  }

  /** Each dependency failure has a transitive prerequisite in trouble. */
  ghost predicate HasCauses(edges: set<(int, int)>, s: Summary) {
    forall x :: (x, DependencyFailed) in s.cancelled ==>
      exists y :: (y in s.failed || y in s.panicked || (y, Timeout) in s.cancelled) && y != x && Reaches(edges, y, x)
  }

  lemma ExplainedMonotone(edges: set<(int, int)>, edges': set<(int, int)>, s: Summary, marked: set<int>)
    requires Explained(edges, s, marked) && edges <= edges'
    ensures Explained(edges', s, marked)
  {
    CausedMonotone(edges, edges', Troubled(s), Troubled(s), marked + Blamed(s));
  }
}
