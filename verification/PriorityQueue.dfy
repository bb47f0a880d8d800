/** src/fluent-concurrency/src/queue.rs, `PriorityQueue`: a fast path for priority
    zero beside one bucket per other priority. It behaves as a single list in
    descending priority, first in first out within a priority. */
module PriorityQueues {
  import opened Sequences

  // The list

  ghost predicate Descending<T>(l: seq<(int, T)>) {
    forall i, j :: 0 <= i < j < |l| ==> l[i].0 >= l[j].0
  }

  /** The items of one priority, in order. */
  ghost function Project<T>(l: seq<(int, T)>, p: int): seq<T> {
    if l == [] then []
    else Project(l[..|l| - 1], p) + if l[|l| - 1].0 == p then [l[|l| - 1].1] else []
  }

  /** Behind everything of the same or a higher priority. */
  function Enqueued<T>(l: seq<(int, T)>, e: (int, T)): (r: seq<(int, T)>)
    ensures |r| == |l| + 1
  {
    if l == [] || l[|l| - 1].0 >= e.0 then l + [e]
    else Enqueued(l[..|l| - 1], e) + [l[|l| - 1]]
  }

  /** `e` is inserted behind all entries of at least its priority and before the rest. */
  ghost predicate InsertedAt<T>(l: seq<(int, T)>, e: (int, T), r: seq<(int, T)>, k: nat) {
    && k <= |l| && r == l[..k] + [e] + l[k..]
    && (forall i :: 0 <= i < k ==> l[i].0 >= e.0)
    && (forall i :: k <= i < |l| ==> l[i].0 < e.0)
  }

  lemma {:induction false} EnqueuedMeans<T>(l: seq<(int, T)>, e: (int, T)) returns (k: nat)
    requires Descending(l)
    ensures InsertedAt(l, e, Enqueued(l, e), k)
  {
    if l == [] || l[|l| - 1].0 >= e.0 {
      k := |l|;
      assert l[..k] == l && l[k..] == [];
    } else {
      var front, last := l[..|l| - 1], l[|l| - 1];
      k := EnqueuedMeans(front, e);
      assert front[..k] == l[..k] && front[k..] + [last] == l[k..];
    }
  }

  lemma ProjectAppend<T>(l: seq<(int, T)>, e: (int, T), p: int)
    ensures Project(l + [e], p) == Project(l, p) + if e.0 == p then [e.1] else []
  {
  }

  lemma {:induction false} ProjectInsert<T>(l: seq<(int, T)>, e: (int, T), p: int)
    requires Descending(l)
    ensures Project(Enqueued(l, e), p) == Project(l, p) + if e.0 == p then [e.1] else []
  {
    if l == [] || l[|l| - 1].0 >= e.0 {
      ProjectAppend(l, e, p);
    } else {
      var front, last := l[..|l| - 1], l[|l| - 1];
      ProjectInsert(front, e, p);
      ProjectAppend(Enqueued(front, e), last, p);
    }
  }

  lemma {:induction false} InsertDescending<T>(l: seq<(int, T)>, e: (int, T))
    requires Descending(l)
    ensures Descending(Enqueued(l, e))
    ensures forall i :: 0 <= i < |Enqueued(l, e)| ==> Enqueued(l, e)[i] == e || Enqueued(l, e)[i] in l
  {
    if l != [] && l[|l| - 1].0 < e.0 {
      InsertDescending(l[..|l| - 1], e);
    }
  }

  lemma ProjectNone<T>(p: int)
    ensures Project<T>([], p) == []
  {
  }

  lemma {:induction false} ProjectHead<T>(l: seq<(int, T)>, p: int)
    requires l != []
    ensures Project(l, p) == (if l[0].0 == p then [l[0].1] else []) + Project(l[1..], p)
  {
    hide Project;
    var front, last := l[..|l| - 1], l[|l| - 1];
    assert l == front + [last];
    ProjectAppend(front, last, p);
    if front == [] {
      assert l[1..] == [];
      ProjectNone<T>(p);
    } else {
      ProjectHead(front, p);
      assert l[1..] == front[1..] + [last];
      ProjectAppend(front[1..], last, p);
    }
  }

  lemma {:induction false} ProjectMember<T>(l: seq<(int, T)>, p: int)
    ensures Project(l, p) != [] <==> exists i :: 0 <= i < |l| && l[i].0 == p
  {
    if l != [] {
      ProjectMember(l[..|l| - 1], p);
      if exists i :: 0 <= i < |l| && l[i].0 == p {
        var i :| 0 <= i < |l| && l[i].0 == p;
        assert i < |l| - 1 ==> l[..|l| - 1][i].0 == p;
      }
      if l[|l| - 1].0 != p && Project(l, p) != [] {
        var i :| 0 <= i < |l| - 1 && l[..|l| - 1][i].0 == p;
        assert l[i].0 == p;
      }
    }
  }

  /** The first entry has the greatest priority present. */
  lemma HeadIsGreatest<T>(l: seq<(int, T)>, p: int)
    requires Descending(l) && Project(l, p) != []
    ensures l != [] && p <= l[0].0
  {
    hide Project;
    ProjectMember(l, p);
  }

  lemma HeadProjects<T>(l: seq<(int, T)>)
    ensures l != [] ==> Project(l, l[0].0) != [] && Project(l, l[0].0)[0] == l[0].1
  {
    hide Project;
    if l != [] {
      ProjectHead(l, l[0].0);
    }
  }

  /** A descending list is determined by what it holds at each priority. */
  lemma {:induction false} ListUnique<T>(l: seq<(int, T)>, r: seq<(int, T)>)
    requires Descending(l) && Descending(r) && forall p :: Project(l, p) == Project(r, p)
    ensures l == r
  {
    hide Project;
    HeadProjects(r);
    forall p ensures Project<T>([], p) == [] {
      ProjectNone<T>(p);
    }
    if l != [] {
      var p := l[0].0;
      ProjectHead(l, p);
      HeadIsGreatest(r, p);
      ProjectHead(r, r[0].0);
      HeadIsGreatest(l, r[0].0);
      assert Project(l, p) == Project(r, p);
      assert l[0].0 == r[0].0 && l[0].1 == Project(l, p)[0] == r[0].1;
      forall q ensures Project(l[1..], q) == Project(r[1..], q) {
        ProjectHead(l, q);
        ProjectHead(r, q);
        assert Project(l, q) == Project(r, q);
        var k := if p == q then 1 else 0;
        assert Project(l[1..], q) == Project(l, q)[k..] && Project(r[1..], q) == Project(r, q)[k..];
      }
      ListUnique(l[1..], r[1..]);
      assert l == [l[0]] + l[1..] && r == [r[0]] + r[1..];
    }
  }

  /** `sort_by_key(Reverse(priority))`, stable. */
  function StableSort<T>(l: seq<(int, T)>): seq<(int, T)> {
    if l == [] then [] else Enqueued(StableSort(l[..|l| - 1]), l[|l| - 1])
  }

  lemma {:induction false} StableSortProject<T>(l: seq<(int, T)>, p: int)
    ensures Descending(StableSort(l)) && Project(StableSort(l), p) == Project(l, p)
  {
    if l != [] {
      StableSortProject(l[..|l| - 1], p);
      InsertDescending(StableSort(l[..|l| - 1]), l[|l| - 1]);
      ProjectInsert(StableSort(l[..|l| - 1]), l[|l| - 1], p);
    }
  }

  // The queue

  function Bucket<T>(simple: seq<T>, prioritized: map<int, seq<T>>, p: int): seq<T> {
    if p == 0 then simple else if p in prioritized then prioritized[p] else []
  }

  ghost predicate Holds<T>(simple: seq<T>, prioritized: map<int, seq<T>>, contents: seq<(int, T)>) {
    && Descending(contents)
    && (forall p :: Project(contents, p) == Bucket(simple, prioritized, p))
    && 0 !in prioritized
    && (forall p :: p in prioritized ==> prioritized[p] != [])
  }

  lemma PushHolds<T>(simple: seq<T>, prioritized: map<int, seq<T>>, contents: seq<(int, T)>,
                     simple': seq<T>, prioritized': map<int, seq<T>>, priority: int, item: T)
    requires Holds(simple, prioritized, contents)
    requires if priority == 0 then simple' == simple + [item] && prioritized' == prioritized
             else
               && simple' == simple
               && prioritized' == prioritized[priority := Bucket(simple, prioritized, priority) + [item]]
    ensures Holds(simple', prioritized', Enqueued(contents, (priority, item)))
  {
    hide Project, Enqueued;
    InsertDescending(contents, (priority, item));
    forall p ensures Project(Enqueued(contents, (priority, item)), p) == Bucket(simple', prioritized', p) {
      ProjectInsert(contents, (priority, item), p);
      assert Project(contents, p) == Bucket(simple, prioritized, p);
    }
  }

  lemma TailProject<T>(l: seq<(int, T)>, q: int)
    requires l != []
    ensures l[0].0 == q ==> Project(l, q) == [l[0].1] + Project(l[1..], q)
    ensures l[0].0 != q ==> Project(l[1..], q) == Project(l, q)
  {
    hide Project;
    ProjectHead(l, q);
  }

  /** The queue without the first item of bucket `p`, and without an empty bucket. */
  ghost predicate Removed<T>(simple: seq<T>, prioritized: map<int, seq<T>>, p: int, simple': seq<T>,
                             prioritized': map<int, seq<T>>) {
    if p == 0 then simple != [] && simple' == simple[1..] && prioritized' == prioritized
    else
      && simple' == simple && p in prioritized && prioritized[p] != []
      && prioritized' == if prioritized[p][1..] == [] then prioritized - {p} else prioritized[p := prioritized[p][1..]]
  }

  lemma RemovedBucket<T>(simple: seq<T>, prioritized: map<int, seq<T>>, p: int, simple': seq<T>,
                         prioritized': map<int, seq<T>>, q: int)
    requires Removed(simple, prioritized, p, simple', prioritized')
    ensures Bucket(simple, prioritized, p) != []
    ensures Bucket(simple', prioritized', q) ==
            if q == p then Bucket(simple, prioritized, p)[1..] else Bucket(simple, prioritized, q)
    ensures q in prioritized' ==> q in prioritized && (prioritized[q] != [] ==> prioritized'[q] != [])
  {
  }

  lemma PopHolds<T>(simple: seq<T>, prioritized: map<int, seq<T>>, contents: seq<(int, T)>,
                    simple': seq<T>, prioritized': map<int, seq<T>>)
    requires Holds(simple, prioritized, contents) && contents != []
    requires Removed(simple, prioritized, contents[0].0, simple', prioritized')
    ensures Holds(simple', prioritized', contents[1..])
    ensures Bucket(simple, prioritized, contents[0].0) != []
    ensures Bucket(simple, prioritized, contents[0].0)[0] == contents[0].1
  {
    hide Project, Removed, Bucket;
    var p := contents[0].0;
    TailProject(contents, p);
    assert Project(contents, p) == Bucket(simple, prioritized, p);
    RemovedBucket(simple, prioritized, p, simple', prioritized', p);
    forall q ensures Project(contents[1..], q) == Bucket(simple', prioritized', q) {
      TailProject(contents, q);
      RemovedBucket(simple, prioritized, p, simple', prioritized', q);
      assert Project(contents, q) == Bucket(simple, prioritized, q);
    }
    forall q | q in prioritized' ensures prioritized'[q] != [] && q in prioritized {
      RemovedBucket(simple, prioritized, p, simple', prioritized', q);
    }
  }

  lemma HeadOfBucket<T>(simple: seq<T>, prioritized: map<int, seq<T>>, contents: seq<(int, T)>)
    requires Holds(simple, prioritized, contents) && contents != []
    ensures Bucket(simple, prioritized, contents[0].0) != []
    ensures Bucket(simple, prioritized, contents[0].0)[0] == contents[0].1
  {
    hide Project, Bucket;
    var p := contents[0].0;
    TailProject(contents, p);
    assert Project(contents, p) == Bucket(simple, prioritized, p);
  }

  datatype Pick = Positive(key: int) | Simple | Negative(key: int) | Empty

  /** The key of `last_key_value`. */
  method LastKey<T>(m: map<int, seq<T>>) returns (r: Option<int>)
    ensures r.None? ==> m.Keys == {}
    ensures r.Some? ==> r.value in m && forall k :: k in m ==> k <= r.value
  {
    var keys := Enumerate(m.Keys);
    r := None;
    for i := 0 to |keys|
      invariant r.None? <==> i == 0
      invariant r.Some? ==> r.value in m && forall j :: 0 <= j < i ==> keys[j] <= r.value
    {
      if r.None? || keys[i] > r.value {
        r := Some(keys[i]);
      }
    }
    if r.None? {
      assert Elems(keys) == {};
    }
  }

  /** Entries `(p, x)` for each `x`, in order. */
  function Tagged<T>(p: int, s: seq<T>): seq<(int, T)> {
    if s == [] then [] else Tagged(p, s[..|s| - 1]) + [(p, s[|s| - 1])]
  }

  lemma {:induction false} ProjectTagged<T>(l: seq<(int, T)>, p: int, s: seq<T>, q: int)
    ensures Project(l + Tagged(p, s), q) == Project(l, q) + if p == q then s else []
  {
    hide Project;
    if s == [] {
      assert l + Tagged(p, s) == l;
    } else {
      var front, last := s[..|s| - 1], s[|s| - 1];
      assert s == front + [last];
      ProjectTagged(l, p, front, q);
      ProjectAppend(l + Tagged(p, front), (p, last), q);
      assert l + Tagged(p, s) == l + Tagged(p, front) + [(p, last)];
    }
  }

  class PriorityQueue<T> {
    var simple: seq<T>
    var prioritized: map<int, seq<T>>
    var count: nat
    ghost var contents: seq<(int, T)>

    /** The buckets hold `contents`, priority by priority; no bucket is empty and
        none has key zero. */
    ghost predicate Valid()
      reads this
    {
      Holds(simple, prioritized, contents) && count == |contents|
    }

    constructor ()
      ensures Valid() && contents == []
    {
      simple, prioritized, count, contents := [], map[], 0, [];
    }

    method Push(item: T, priority: int)
      requires Valid()
      modifies this
      ensures Valid() && contents == Enqueued(old(contents), (priority, item))
      ensures exists k :: InsertedAt(old(contents), (priority, item), contents, k)
    {
      ghost var k := EnqueuedMeans(contents, (priority, item));
      hide Holds, Project, Enqueued, InsertedAt;
      ghost var s, m, c := simple, prioritized, contents;
      contents := Enqueued(contents, (priority, item));
      count := count + 1;
      if priority == 0 {
        simple := simple + [item];
      } else {
        prioritized := prioritized[priority := Bucket(simple, prioritized, priority) + [item]];
      }
      PushHolds(s, m, c, simple, prioritized, priority, item);
    }

    /** The bucket that holds the first entry. */
    method PickBucket() returns (r: Pick)
      requires Valid()
      ensures r.Empty? <==> contents == []
      ensures r.Positive? || r.Negative? ==>
                contents != [] && r.key == contents[0].0 != 0 && r.key in prioritized && prioritized[r.key] != []
      ensures r.Simple? ==> contents != [] && contents[0].0 == 0 && simple != []
    {
      hide Project, Descending;
      HeadProjects(contents);
      if contents != [] {
        assert Project(contents, contents[0].0) == Bucket(simple, prioritized, contents[0].0);
      }
      var last := LastKey(prioritized);
      if last.Some? {
        assert Project(contents, last.value) == Bucket(simple, prioritized, last.value) == prioritized[last.value];
        HeadIsGreatest(contents, last.value);
      }
      if last.Some? && last.value > 0 {
        return Positive(last.value);
      }
      if simple != [] {
        assert Project(contents, 0) == Bucket(simple, prioritized, 0) == simple;
        HeadIsGreatest(contents, 0);
        return Simple;
      }
      if last.Some? {
        return Negative(last.value);
      }
      return Empty;
    }

    method Pop() returns (r: Option<(T, int)>)
      requires Valid()
      modifies this
      ensures Valid()
      ensures r.None? <==> old(contents) == []
      ensures r.None? ==> contents == []
      ensures r.Some? ==> r.value == (old(contents)[0].1, old(contents)[0].0) && contents == old(contents)[1..]
    {
      hide Holds;
      var pick := PickBucket();
      if pick.Empty? {
        return None;
      }
      var p := if pick.Simple? then 0 else pick.key;
      ghost var s, m, c := simple, prioritized, contents;
      var item := Bucket(simple, prioritized, p)[0];
      if pick.Simple? {
        simple := simple[1..];
      } else {
        var rest := prioritized[p][1..];
        prioritized := if rest == [] then prioritized - {p} else prioritized[p := rest];
      }
      PopHolds(s, m, c, simple, prioritized);
      count := count - 1;
      contents := contents[1..];
      return Some((item, p));
    }

    method Peek() returns (r: Option<(T, int)>)
      requires Valid()
      ensures r == if contents == [] then None else Some((contents[0].1, contents[0].0))
    {
      hide Holds;
      var pick := PickBucket();
      if pick.Empty? {
        return None;
      }
      var p := if pick.Simple? then 0 else pick.key;
      HeadOfBucket(simple, prioritized, contents);
      return Some((Bucket(simple, prioritized, p)[0], p));
    }

    /** All entries at once, by gathering the buckets and sorting them. */
    method Drain() returns (r: seq<(int, T)>)
      requires Valid()
      modifies this
      ensures Valid() && contents == [] && r == old(contents)
    {
      var items := Gather(prioritized, simple);
      r := StableSort(items);
      forall p ensures Project(r, p) == Project(contents, p) {
        StableSortProject(items, p);
      }
      StableSortProject(items, 0);
      ListUnique(r, contents);
      count, simple, prioritized, contents := 0, [], map[], [];
    }

    /** Popping until nothing is left yields the same as `Drain`. */
    method PopAll() returns (r: seq<(int, T)>)
      requires Valid()
      modifies this
      ensures Valid() && contents == [] && r == old(contents)
    {
      r := [];
      ghost var start := contents;
      while count > 0
        invariant Valid() && |r| <= |start| && r == start[..|r|] && contents == start[|r|..]
        decreases count
      {
        var e := Pop();
        r := r + [(e.value.1, e.value.0)];
      }
    }
  }

  method Gather<T>(prioritized: map<int, seq<T>>, simple: seq<T>) returns (items: seq<(int, T)>)
    requires 0 !in prioritized
    ensures forall p :: Project(items, p) == Bucket(simple, prioritized, p)
  {
    hide Project, Tagged, Bucket;
    items := [];
    var keys := Enumerate(prioritized.Keys);
    hide NoDup, Elems, Holding;
    HoldingNone(prioritized);
    for i := 0 to |keys|
      invariant Holding(prioritized, Elems(keys[..i]), items)
    {
      var key := keys[i];
      assert key !in Elems(keys[..i]) by { NotYet(keys, i); }
      assert keys[..i + 1] == keys[..i] + [key];
      ElemsAppend(keys[..i], key);
      HoldingOneMore(prioritized, Elems(keys[..i]), items, key);
      items := items + Tagged(key, prioritized[key]);
    }
    assert keys[..|keys|] == keys;
    HoldingAll(prioritized, items, simple);
    items := items + Tagged(0, simple);
  }

  lemma NotYet(keys: seq<int>, i: nat)
    requires NoDup(keys) && i < |keys|
    ensures keys[i] !in Elems(keys[..i])
  {
  }

  /** `items` holds the buckets of the keys in `done`, and nothing else. */
  ghost predicate Holding<T>(prioritized: map<int, seq<T>>, done: set<int>, items: seq<(int, T)>) {
    forall p :: Project(items, p) == if p in done && p in prioritized then prioritized[p] else []
  }

  lemma HoldingNone<T>(prioritized: map<int, seq<T>>)
    ensures Holding(prioritized, Elems<int>([]), [])
  {
  }

  lemma HoldingOneMore<T>(prioritized: map<int, seq<T>>, done: set<int>, items: seq<(int, T)>, key: int)
    requires Holding(prioritized, done, items) && key in prioritized && key !in done
    ensures Holding(prioritized, done + {key}, items + Tagged(key, prioritized[key]))
  {
    hide Project, Tagged;
    var batch := Tagged(key, prioritized[key]);
    forall p ensures Project(items + batch, p) == if p in done + {key} && p in prioritized then prioritized[p] else [] {
      ProjectTagged(items, key, prioritized[key], p);
      assert Project(items, p) == if p in done && p in prioritized then prioritized[p] else [];
      assert [] + prioritized[key] == prioritized[key];
      assert Project(items, p) + [] == Project(items, p);
    }
  }

  lemma HoldingAll<T>(prioritized: map<int, seq<T>>, items: seq<(int, T)>, simple: seq<T>)
    requires Holding(prioritized, prioritized.Keys, items) && 0 !in prioritized
    ensures forall p :: Project(items + Tagged(0, simple), p) == Bucket(simple, prioritized, p)
  {
    hide Project, Tagged;
    forall p ensures Project(items + Tagged(0, simple), p) == Bucket(simple, prioritized, p) {
      ProjectTagged(items, 0, simple, p);
      assert Project(items, p) == if p in prioritized then prioritized[p] else [];
      assert [] + simple == simple;
      assert Project(items, p) + [] == Project(items, p);
    }
  }
}
