/** Facts about sequences that several modules share: distinctness, removal of a
    value, multiplicity, and the ascending sort of the integer keys. */
module Sequences {

  datatype Option<+T> = None | Some(value: T)

  const USIZE_MAX: nat := 0xFFFF_FFFF_FFFF_FFFF

  ghost predicate NoDup<T>(s: seq<T>) {
    forall i, j :: 0 <= i < j < |s| ==> s[i] != s[j]
  }

  function Elems<T(==)>(s: seq<T>): set<T> {
    set x | x in s
  }

  lemma ElemsAppend<T>(s: seq<T>, x: T)
    ensures Elems(s + [x]) == Elems(s) + {x}
  {
  }

  lemma {:induction false} NoDupLength<T>(s: seq<T>, bound: set<T>)
    requires NoDup(s) && Elems(s) <= bound
    ensures |s| <= |bound|
    ensures |s| == |bound| ==> Elems(s) == bound
  {
    if s != [] {
      var last := s[|s| - 1];
      var front := s[..|s| - 1];
      assert Elems(front) <= bound - {last};
      NoDupLength(front, bound - {last});
      assert Elems(s) == Elems(front) + {last};
    }
  }

  lemma NoDupCardinality<T>(s: seq<T>)
    requires NoDup(s)
    ensures |s| == |Elems(s)|
  {
    if s != [] {
      var last := s[|s| - 1];
      var front := s[..|s| - 1];
      NoDupCardinality(front);
      assert Elems(s) == Elems(front) + {last};
    }
  }

  /** `Vec::retain(|m| m != x)`. */
  function Without<T(==)>(s: seq<T>, x: T): seq<T> {
    if s == [] then []
    else Without(s[..|s| - 1], x) + if s[|s| - 1] == x then [] else [s[|s| - 1]]
  }

  lemma {:induction false} WithoutElems<T>(s: seq<T>, x: T)
    ensures Elems(Without(s, x)) == Elems(s) - {x}
    ensures NoDup(s) ==> NoDup(Without(s, x))
    ensures x !in s ==> Without(s, x) == s
  {
    if s != [] {
      var front, last := s[..|s| - 1], s[|s| - 1];
      WithoutElems(front, x);
      assert s == front + [last];
      WithoutStep(s, Without(front, x), Without(s, x), front, last, x);
    }
  }

  lemma WithoutStep<T>(s: seq<T>, w: seq<T>, w': seq<T>, front: seq<T>, last: T, x: T)
    requires s == front + [last] && Elems(w) == Elems(front) - {x} && (NoDup(front) ==> NoDup(w))
    requires x !in front ==> w == front
    requires w' == w + if last == x then [] else [last]
    ensures Elems(w') == Elems(s) - {x}
    ensures NoDup(s) ==> NoDup(w')
    ensures x !in s ==> w' == s
  {
    hide NoDup;
    assert w + [] == w;
    ElemsAppend(front, last);
    ElemsAppend(w, last);
    if NoDup(s) {
      NoDupFront(s);
      assert s[..|s| - 1] == front;
      if last != x {
        NoDupAppend(w, last);
      }
    }
  }

  lemma NoDupFront<T>(s: seq<T>)
    requires s != [] && NoDup(s)
    ensures NoDup(s[..|s| - 1]) && s[|s| - 1] !in Elems(s[..|s| - 1])
  {
  }

  lemma NoDupPrefix<T>(s: seq<T>, i: nat)
    requires NoDup(s) && i < |s|
    ensures s[i] !in s[..i]
  {
  }

  lemma NoDupParts<T>(s: seq<T>, t: seq<T>)
    requires NoDup(s + t)
    ensures NoDup(s) && NoDup(t) && Elems(s) !! Elems(t)
  {
    var r := s + t;
    forall i, j | 0 <= i < |s| && 0 <= j < |t| ensures s[i] != t[j] {
      assert r[i] == s[i] && r[|s| + j] == t[j];
    }
    forall i, j | 0 <= i < j < |s| ensures s[i] != s[j] {
      assert r[i] == s[i] && r[j] == s[j];
    }
    forall i, j | 0 <= i < j < |t| ensures t[i] != t[j] {
      assert r[|s| + i] == t[i] && r[|s| + j] == t[j];
    }
  }

  lemma NoDupConcat<T>(s: seq<T>, t: seq<T>)
    requires NoDup(s) && NoDup(t) && Elems(s) !! Elems(t)
    ensures NoDup(s + t)
  {
    forall i, j | 0 <= i < |s| && 0 <= j < |t| ensures s[i] != t[j] {
      assert s[i] in Elems(s) && t[j] in Elems(t);
    }
  }

  lemma ElemsConcat<T>(s: seq<T>, t: seq<T>)
    ensures Elems(s + t) == Elems(s) + Elems(t)
  {
  }

  lemma NoDupAppend<T>(s: seq<T>, x: T)
    requires NoDup(s) && x !in Elems(s)
    ensures NoDup(s + [x])
  {
  }

  lemma {:induction false} WithoutConcat<T>(s: seq<T>, t: seq<T>, x: T)
    ensures Without(s + t, x) == Without(s, x) + Without(t, x)
  {
    if t == [] {
      assert s + t == s;
    } else {
      var front := t[..|t| - 1];
      assert (s + t)[..|s + t| - 1] == s + front;
      WithoutConcat(s, front, x);
    }
  }

  /** Multiplicity of `x` in `s`. */
  function Count<T(==)>(s: seq<T>, x: T): nat {
    if s == [] then 0
    else Count(s[..|s| - 1], x) + if s[|s| - 1] == x then 1 else 0
  }

  lemma {:induction false} CountPositive<T>(s: seq<T>, x: T)
    ensures Count(s, x) > 0 <==> x in s
  {
    if s != [] {
      CountPositive(s[..|s| - 1], x);
      assert s == s[..|s| - 1] + [s[|s| - 1]];
    }
  }

  lemma CountAppend<T>(s: seq<T>, y: T, x: T)
    ensures Count(s + [y], x) == Count(s, x) + if y == x then 1 else 0
  {
  }

  lemma CountExtend<T>(s: seq<T>, i: nat, x: T)
    requires i < |s|
    ensures Count(s[..i + 1], x) == Count(s[..i], x) + if s[i] == x then 1 else 0
  {
    assert s[..i + 1][..i] == s[..i];
  }

  ghost predicate Sorted(s: seq<int>) {
    forall i, j :: 0 <= i < j < |s| ==> s[i] <= s[j]
  }

  function Insert(s: seq<int>, x: int): (r: seq<int>)
    ensures multiset(r) == multiset(s) + multiset{x}
  {
    if s == [] || x <= s[0] then [x] + s
    else
      assert s == [s[0]] + s[1..];
      [s[0]] + Insert(s[1..], x)
  }

  lemma ConsSorted(x: int, s: seq<int>)
    requires Sorted(s) && forall y :: y in s ==> x <= y
    ensures Sorted([x] + s)
  {
    forall i, j | 0 <= i < j < |s| + 1 ensures ([x] + s)[i] <= ([x] + s)[j] {
      assert s[j - 1] in s;
    }
  }

  lemma {:induction false} InsertSorted(s: seq<int>, x: int)
    requires Sorted(s)
    ensures Sorted(Insert(s, x))
  {
    if s != [] && s[0] < x {
      InsertSorted(s[1..], x);
      var rest := Insert(s[1..], x);
      forall y | y in rest ensures s[0] <= y {
        assert y in multiset(rest);
        assert y == x || y in multiset(s[1..]);
      }
      ConsSorted(s[0], rest);
    }
  }

  /** `sort_unstable` on integer keys: the ascending rearrangement. */
  function Sort(s: seq<int>): (r: seq<int>)
    ensures Sorted(r)
    ensures multiset(r) == multiset(s)
  {
    if s == [] then []
    else
      assert s == s[..|s| - 1] + [s[|s| - 1]];
      InsertSorted(Sort(s[..|s| - 1]), s[|s| - 1]);
      Insert(Sort(s[..|s| - 1]), s[|s| - 1])
  }

  lemma SameMultisetElems<T>(s: seq<T>, t: seq<T>)
    requires multiset(s) == multiset(t)
    ensures Elems(s) == Elems(t) && |s| == |t|
    ensures NoDup(s) ==> NoDup(t)
  {
    assert forall x :: x in s <==> x in multiset(s);
    assert forall x :: x in t <==> x in multiset(t);
    assert |multiset(s)| == |s| && |multiset(t)| == |t|;
    if NoDup(s) && !NoDup(t) {
      NoDupCardinality(s);
      var i, j :| 0 <= i < j < |t| && t[i] == t[j];
      var u := t[..j] + t[j + 1..];
      assert Elems(u) == Elems(t) by {
        forall x | x in t ensures x in u {
          var k :| 0 <= k < |t| && t[k] == x;
          if k == j { assert u[i] == x; } else if k < j { assert u[k] == x; } else { assert u[k - 1] == x; }
        }
      }
      ElemsAtMostLength(u);
    }
  }

  lemma ElemsAtMostLength<T>(s: seq<T>)
    ensures |Elems(s)| <= |s|
  {
    if s != [] {
      ElemsAtMostLength(s[..|s| - 1]);
      assert Elems(s) == Elems(s[..|s| - 1]) + {s[|s| - 1]};
    }
  }

  lemma SameElems(r: seq<int>, s: set<int>)
    requires forall x :: x in r <==> x in s
    ensures Elems(r) == s
  {
    forall x: int | x in Elems(r) ensures x in s {
      assert x in r;
    }
    forall x: int | x in s ensures x in Elems(r) {
      assert x in r;
    }
  }

  lemma Inhabited<T>(s: set<T>) returns (x: T)
    requires s != {}
    ensures x in s
  {
    x :| x in s;
  }

  /** The elements of a hash set in some order, which the caller cannot choose. */
  method Enumerate(s: set<int>) returns (r: seq<int>)
    ensures NoDup(r) && Elems(r) == s
    ensures forall x :: x in r <==> x in s
  {
    r := [];
    var rest := s;
    while rest != {}
      invariant rest <= s && NoDup(r) && forall x :: x in r <==> x in s && x !in rest
      decreases rest
    {
      ghost var w := Inhabited(rest);
      var x :| x in rest;
      r := r + [x];
      rest := rest - {x};
    }
    SameElems(r, s);
  }

  /** One more seen leaves one fewer to see. */
  lemma OneFewer(all: set<int>, seen: set<int>, x: int)
    requires x in all && x !in seen
    ensures |all - (seen + {x})| < |all - seen|
  {
    assert all - seen == all - (seen + {x}) + {x};
  }
}
