/** src/fluent-onnx/src/align.rs: mapping one tokenizer's tokens to another's by
    byte offsets. */
module Alignment {
  import opened Sequences

  type Span = (nat, nat)

  /** Both streams list spans in text order, without overlap. */
  ghost predicate Ordered(spans: seq<Span>) {
    && (forall i :: 0 <= i < |spans| ==> spans[i].0 <= spans[i].1)
    && (forall i, j :: 0 <= i < j < |spans| ==> spans[i].1 <= spans[j].0)
  }

  function Min(a: nat, b: nat): nat { if a <= b then a else b }

  function Max(a: nat, b: nat): nat { if a <= b then b else a }

  function Overlap(a: Span, b: Span): nat {
    var hi, lo := Min(a.1, b.1), Max(a.0, b.0);
    if hi >= lo then hi - lo else 0
  }

  /** The positions a span covers. */
  ghost function Bytes(s: Span): set<int> {
    set x | 0 <= x < s.1 && Holds(s, x)
  }

  predicate Holds(s: Span, x: int) {
    s.0 <= x < s.1
  }

  lemma {:induction false} BytesSize(s: Span)
    requires s.0 <= s.1
    ensures |Bytes(s)| == s.1 - s.0
    decreases s.1 - s.0
  {
    if s.0 == s.1 {
      assert Bytes(s) == {};
    } else {
      var front := (s.0, s.1 - 1);
      BytesSize(front);
      assert Bytes(s) == Bytes(front) + {s.1 - 1};
    }
  }

  /** The overlap is the number of positions that both spans cover. */
  lemma OverlapCounts(a: Span, b: Span)
    ensures Overlap(a, b) == |Bytes(a) * Bytes(b)|
    ensures Overlap(a, b) == 0 <==> Bytes(a) !! Bytes(b)
  {
    var hi, lo := Min(a.1, b.1), Max(a.0, b.0);
    if lo <= hi {
      BytesSize((lo, hi));
      assert Bytes(a) * Bytes(b) == Bytes((lo, hi));
    } else {
      assert Bytes(a) * Bytes(b) == {};
    }
    if lo < hi {
      assert lo in Bytes(a) && lo in Bytes(b);
    }
  }

  ghost predicate Contains(outer: Span, inner: Span) {
    outer.0 <= inner.0 && inner.1 <= outer.1
  }

  /** The first span with the greatest overlap, or none if nothing overlaps. */
  ghost predicate IsBest(spans: seq<Span>, span: Span, r: Option<nat>) {
    match r
    case None => forall k :: 0 <= k < |spans| ==> Overlap(span, spans[k]) == 0
    case Some(b) =>
      && b < |spans| && Overlap(span, spans[b]) > 0
      && (forall k :: 0 <= k < |spans| ==> Overlap(span, spans[k]) <= Overlap(span, spans[b]))
      && (forall k :: 0 <= k < b ==> Overlap(span, spans[k]) < Overlap(span, spans[b]))
  }

  lemma BestUnique(spans: seq<Span>, span: Span, r: Option<nat>, r': Option<nat>)
    requires IsBest(spans, span, r) && IsBest(spans, span, r')
    ensures r == r'
  {
  }

  /** In positions covered: the first span that shares the most with `span`, and none
      exactly when no span shares any. */
  lemma BestShares(spans: seq<Span>, span: Span, r: Option<nat>)
    requires IsBest(spans, span, r)
    ensures r.None? <==> forall k :: 0 <= k < |spans| ==> Bytes(span) !! Bytes(spans[k])
    ensures r.Some? ==> r.value < |spans|
    ensures r.Some? ==> forall k :: 0 <= k < |spans| ==>
              |Bytes(span) * Bytes(spans[k])| <= |Bytes(span) * Bytes(spans[r.value])|
    ensures r.Some? ==> forall k :: 0 <= k < r.value ==>
              |Bytes(span) * Bytes(spans[k])| < |Bytes(span) * Bytes(spans[r.value])|
  {
    hide Overlap, Bytes;
    forall k | 0 <= k < |spans|
      ensures Overlap(span, spans[k]) == |Bytes(span) * Bytes(spans[k])|
      ensures Overlap(span, spans[k]) == 0 <==> Bytes(span) !! Bytes(spans[k])
    {
      OverlapCounts(span, spans[k]);
    }
  }

  method BestOverlap(spans: seq<Span>, span: Span) returns (r: Option<nat>)
    ensures IsBest(spans, span, r)
    ensures r.None? <==> forall k :: 0 <= k < |spans| ==> Bytes(span) !! Bytes(spans[k])
    ensures r.Some? ==> r.value < |spans|
    ensures r.Some? ==> forall k :: 0 <= k < |spans| ==>
              |Bytes(span) * Bytes(spans[k])| <= |Bytes(span) * Bytes(spans[r.value])|
    ensures r.Some? ==> forall k :: 0 <= k < r.value ==>
              |Bytes(span) * Bytes(spans[k])| < |Bytes(span) * Bytes(spans[r.value])|
  {
    var best: Option<(nat, nat)> := None;
    for i := 0 to |spans|
      invariant best.None? ==> forall k :: 0 <= k < i ==> Overlap(span, spans[k]) == 0
      invariant best.Some? ==> best.value.1 > 0 && IsBest(spans[..i], span, Some(best.value.0)) &&
                               best.value.1 == Overlap(span, spans[best.value.0])
    {
      var overlap := Overlap(span, spans[i]);
      assert spans[..i + 1] == spans[..i] + [spans[i]];
      if overlap != 0 && !(best.Some? && best.value.1 >= overlap) {
        best := Some((i, overlap));
      }
    }
    assert spans[..|spans|] == spans;
    r := if best.None? then None else Some(best.value.0);
    BestShares(spans, span, r);
  }

  /** A non-empty token inside one of several disjoint spans overlaps no other. */
  lemma ContainerIsBest(spans: seq<Span>, span: Span, k: nat)
    requires Ordered(spans) && k < |spans| && Contains(spans[k], span) && span.0 < span.1
    ensures IsBest(spans, span, Some(k))
    ensures forall j :: 0 <= j < |spans| && Contains(spans[j], span) ==> j == k
  {
  }

  /** Zero-width tokens map to nothing, every other token to its best span. */
  ghost predicate Maps(spacy: seq<Span>, lfm: seq<Span>, m: seq<Option<nat>>) {
    && |m| == |lfm|
    && forall i :: 0 <= i < |lfm| ==>
         if lfm[i].0 == lfm[i].1 then m[i] == None else IsBest(spacy, lfm[i], m[i])
  }

  /** The one-pass scan with a cursor into the spacy tokens. */
  method MapTokens(spacy: seq<Span>, lfm: seq<Span>) returns (m: seq<Option<nat>>)
    ensures |m| == |lfm| && forall i :: 0 <= i < |m| && m[i].Some? ==> m[i].value < |spacy|
    ensures Ordered(spacy) && Ordered(lfm) ==> Maps(spacy, lfm, m)
  {
    hide IsBest;
    m := [];
    var j := 0;
    for i := 0 to |lfm|
      invariant |m| == i && j <= |spacy|
      invariant forall k :: 0 <= k < i && m[k].Some? ==> m[k].value < |spacy|
      invariant Ordered(spacy) && Ordered(lfm) ==> Maps(spacy, lfm[..i], m)
    {
      var span := lfm[i];
      assert lfm[..i + 1] == lfm[..i] + [span];
      if span.0 == span.1 {
        m := m + [None];
        continue;
      }
      while j < |spacy| && spacy[j].1 <= span.0
        invariant j <= |spacy|
      {
        j := j + 1;
      }
      if j < |spacy| && spacy[j].0 <= span.0 && span.1 <= spacy[j].1 {
        if Ordered(spacy) && Ordered(lfm) {
          ContainerIsBest(spacy, span, j);
        }
        m := m + [Some(j)];
      } else {
        var best := BestOverlap(spacy, span);
        m := m + [best];
      }
    }
    assert lfm[..|lfm|] == lfm;
  }

  /** `[lo, hi)` runs from the first to the last token mapped to `k`; it is `0..0`
      when there is none. */
  ghost predicate Covers(m: seq<Option<nat>>, k: nat, range: (nat, nat)) {
    if range.0 == range.1 then range == (0, 0) && Absent(m, |m|, k) else Spans(m, |m|, k, range.0, range.1)
  }

  /** None of the first `n` tokens is mapped to `k`. */
  ghost predicate Absent(m: seq<Option<nat>>, n: nat, k: nat)
    requires n <= |m|
  {
    forall i :: 0 <= i < n ==> m[i] != Some(k)
  }

  /** `lo` and `hi - 1` are the first and the last of them that are. */
  ghost predicate Spans(m: seq<Option<nat>>, n: nat, k: nat, lo: nat, hi: nat)
    requires n <= |m|
  {
    && lo < hi <= n && m[lo] == Some(k) && m[hi - 1] == Some(k)
    && forall i :: 0 <= i < n && m[i] == Some(k) ==> lo <= i < hi
  }

  /** The bounds gathered for one spacy token from a prefix of the mapping. */
  ghost predicate Gathered(m: seq<Option<nat>>, n: nat, k: nat, lo: nat, hi: nat)
    requires n <= |m|
  {
    if lo > hi then lo == USIZE_MAX && hi == 0 && Absent(m, n, k) else Spans(m, n, k, lo, hi)
  }

  method Ranges(m: seq<Option<nat>>, count: nat) returns (ranges: seq<(nat, nat)>)
    requires |m| < USIZE_MAX && forall i :: 0 <= i < |m| && m[i].Some? ==> m[i].value < count
    ensures |ranges| == count && forall k :: 0 <= k < count ==> Covers(m, k, ranges[k])
  {
    hide Covers, Gathered;
    var starts: seq<nat> := seq(count, _ => USIZE_MAX);
    var ends: seq<nat> := seq(count, _ => 0);
    forall k: nat | k < count ensures Gathered(m, 0, k, starts[k], ends[k]) {
      GatherNone(m, k);
    }
    for i := 0 to |m|
      invariant |starts| == |ends| == count
      invariant forall k :: 0 <= k < count ==> Gathered(m, i, k, starts[k], ends[k])
    {
      forall k: nat | k < count && m[i] != Some(k) ensures Gathered(m, i + 1, k, starts[k], ends[k]) {
        GatherSkip(m, i, k, starts[k], ends[k]);
      }
      if m[i].Some? {
        var j := m[i].value;
        GatherStep(m, i, j, starts[j], ends[j]);
        starts := starts[j := Min(starts[j], i)];
        ends := ends[j := Max(ends[j], i + 1)];
      }
    }
    ranges := [];
    for k := 0 to count
      invariant |ranges| == k && forall j :: 0 <= j < k ==> Covers(m, j, ranges[j])
    {
      GatherEnd(m, k, starts[k], ends[k]);
      ranges := ranges + [if starts[k] <= ends[k] then (starts[k], ends[k]) else (0, 0)];
    }
  }

  lemma GatherNone(m: seq<Option<nat>>, k: nat)
    ensures Gathered(m, 0, k, USIZE_MAX, 0)
  {
  }

  lemma GatherEnd(m: seq<Option<nat>>, k: nat, lo: nat, hi: nat)
    requires Gathered(m, |m|, k, lo, hi)
    ensures Covers(m, k, if lo <= hi then (lo, hi) else (0, 0))
  {
  }

  lemma GatherSkip(m: seq<Option<nat>>, i: nat, k: nat, lo: nat, hi: nat)
    requires i < |m| && m[i] != Some(k) && Gathered(m, i, k, lo, hi)
    ensures Gathered(m, i + 1, k, lo, hi)
  {
  }

  lemma GatherStep(m: seq<Option<nat>>, i: nat, j: nat, lo: nat, hi: nat)
    requires i < |m| < USIZE_MAX && m[i] == Some(j) && Gathered(m, i, j, lo, hi)
    ensures Gathered(m, i + 1, j, Min(lo, i), Max(hi, i + 1))
  {
  }

  /** `align`. */
  method Align(spacy: seq<Span>, lfm: seq<Span>) returns (m: seq<Option<nat>>, ranges: seq<(nat, nat)>)
    requires |lfm| < USIZE_MAX
    ensures |m| == |lfm| && |ranges| == |spacy|
    ensures forall k :: 0 <= k < |spacy| ==> Covers(m, k, ranges[k])
    ensures Ordered(spacy) && Ordered(lfm) ==> Maps(spacy, lfm, m)
    // On ordered spans a token maps to the first span that shares the most positions
    // with it, and to nothing exactly when none shares any.
    ensures Ordered(spacy) && Ordered(lfm) ==> forall i :: 0 <= i < |lfm| ==>
              (m[i].None? <==> forall k :: 0 <= k < |spacy| ==> Bytes(lfm[i]) !! Bytes(spacy[k]))
    ensures Ordered(spacy) && Ordered(lfm) ==> forall i :: 0 <= i < |lfm| && m[i].Some? ==>
              var b := m[i].value;
              && b < |spacy|
              && (forall k :: 0 <= k < |spacy| ==>
                    |Bytes(lfm[i]) * Bytes(spacy[k])| <= |Bytes(lfm[i]) * Bytes(spacy[b])|)
              && (forall k :: 0 <= k < b ==> |Bytes(lfm[i]) * Bytes(spacy[k])| < |Bytes(lfm[i]) * Bytes(spacy[b])|)
    // A range holds the tokens mapped to its span, and starts and ends with one.
    ensures forall i :: 0 <= i < |m| && m[i].Some? ==>
              m[i].value < |spacy| && ranges[m[i].value].0 <= i < ranges[m[i].value].1
    ensures forall k :: 0 <= k < |spacy| ==>
              if ranges[k].0 < ranges[k].1 <= |m|
              then m[ranges[k].0] == Some(k) && m[ranges[k].1 - 1] == Some(k)
              else ranges[k] == (0, 0)
  {
    hide Maps, Bytes, Ordered;
    m := MapTokens(spacy, lfm);
    ranges := Ranges(m, |spacy|);
    if Ordered(spacy) && Ordered(lfm) {
      forall i | 0 <= i < |lfm|
        ensures m[i].None? <==> forall k :: 0 <= k < |spacy| ==> Bytes(lfm[i]) !! Bytes(spacy[k])
        ensures m[i].Some? ==> m[i].value < |spacy|
        ensures m[i].Some? ==> forall k :: 0 <= k < |spacy| ==>
                  |Bytes(lfm[i]) * Bytes(spacy[k])| <= |Bytes(lfm[i]) * Bytes(spacy[m[i].value])|
        ensures m[i].Some? ==> forall k :: 0 <= k < m[i].value ==>
                  |Bytes(lfm[i]) * Bytes(spacy[k])| < |Bytes(lfm[i]) * Bytes(spacy[m[i].value])|
      {
        MappedShares(spacy, lfm, m, i);
      }
    }
  }

  /** `BestShares` for the whole mapping; a zero-width token shares nothing. */
  lemma MappedShares(spacy: seq<Span>, lfm: seq<Span>, m: seq<Option<nat>>, i: nat)
    requires Maps(spacy, lfm, m) && i < |lfm|
    ensures m[i].None? <==> forall k :: 0 <= k < |spacy| ==> Bytes(lfm[i]) !! Bytes(spacy[k])
    ensures m[i].Some? ==> m[i].value < |spacy|
    ensures m[i].Some? ==> forall k :: 0 <= k < |spacy| ==>
              |Bytes(lfm[i]) * Bytes(spacy[k])| <= |Bytes(lfm[i]) * Bytes(spacy[m[i].value])|
    ensures m[i].Some? ==> forall k :: 0 <= k < m[i].value ==>
              |Bytes(lfm[i]) * Bytes(spacy[k])| < |Bytes(lfm[i]) * Bytes(spacy[m[i].value])|
  {
    if lfm[i].0 == lfm[i].1 {
      assert Bytes(lfm[i]) == {};
    } else {
      hide IsBest, Bytes;
      BestShares(spacy, lfm[i], m[i]);
    }
  }

  // What the mapping guarantees

  lemma OverlapPoint(a: Span, b: Span) returns (x: nat)
    requires Overlap(a, b) > 0
    ensures a.0 <= x < a.1 && b.0 <= x < b.1
  {
    x := Max(a.0, b.0);
  }

  /** A token inside a spacy token is mapped to it, and to no other. */
  lemma ContainedMapsToContainer(spacy: seq<Span>, lfm: seq<Span>, m: seq<Option<nat>>, i: nat, k: nat)
    requires Ordered(spacy) && Maps(spacy, lfm, m) && i < |lfm| && k < |spacy|
    requires Contains(spacy[k], lfm[i]) && lfm[i].0 < lfm[i].1
    ensures m[i] == Some(k)
  {
  }

  /** Later tokens never map to earlier spacy tokens. */
  lemma MappingMonotone(spacy: seq<Span>, lfm: seq<Span>, m: seq<Option<nat>>, i: nat, j: nat)
    requires Ordered(spacy) && Ordered(lfm) && Maps(spacy, lfm, m)
    requires i < j < |lfm| && m[i].Some? && m[j].Some?
    ensures m[i].value <= m[j].value
  {
  }

  lemma MappedIsWide(spacy: seq<Span>, lfm: seq<Span>, m: seq<Option<nat>>, i: nat)
    requires Ordered(lfm) && Maps(spacy, lfm, m) && i < |m|
    ensures |m| == |lfm| && (m[i].Some? ==> lfm[i].0 < lfm[i].1)
  {
  }

  /** What lies between two tokens of one spacy token lies in it. */
  lemma BetweenIsContained(spacy: seq<Span>, lfm: seq<Span>, m: seq<Option<nat>>, k: nat, lo: nat, i: nat, hi: nat)
    requires Ordered(lfm) && Maps(spacy, lfm, m) && k < |spacy| && lo < i < hi < |lfm|
    requires m[lo] == Some(k) && m[hi] == Some(k)
    ensures Contains(spacy[k], lfm[i])
  {
    var x := OverlapPoint(lfm[lo], spacy[k]);
    var y := OverlapPoint(lfm[hi], spacy[k]);
  }

  /** A token inside a spacy token's range is its own exactly when it is not
      zero-width, so the range is contiguous unless zero-width tokens split it. */
  lemma RangeHoldsOnlyOwn(spacy: seq<Span>, lfm: seq<Span>, m: seq<Option<nat>>, k: nat, range: (nat, nat), i: nat)
    requires Ordered(spacy) && Ordered(lfm) && Maps(spacy, lfm, m) && k < |spacy| && Covers(m, k, range)
    requires range.0 <= i < range.1
    ensures m[i] == Some(k) <==> lfm[i].0 < lfm[i].1
  {
    hide Maps, Ordered, IsBest, Contains;
    var lo, hi := range.0, range.1 - 1;
    MappedIsWide(spacy, lfm, m, i);
    if lo < i < hi && lfm[i].0 < lfm[i].1 {
      BetweenIsContained(spacy, lfm, m, k, lo, i, hi);
      ContainedMapsToContainer(spacy, lfm, m, i, k);
    }
  }

  /** A zero-width token between two halves of one spacy token: its range is not
      contiguous. */
  lemma ZeroWidthInside() returns (spacy: seq<Span>, lfm: seq<Span>, m: seq<Option<nat>>)
    ensures Ordered(spacy) && Ordered(lfm) && Maps(spacy, lfm, m) && |spacy| == 1
    ensures Covers(m, 0, (0, 3)) && m[1] != Some(0)
  {
    spacy, lfm, m := [(0, 4)], [(0, 2), (2, 2), (2, 4)], [Some(0), None, Some(0)];
    ContainerIsBest(spacy, lfm[0], 0);
    ContainerIsBest(spacy, lfm[2], 0);
    hide IsBest;
  }

  /** The ranges of distinct spacy tokens are disjoint and increasing. */
  lemma RangesIncrease(spacy: seq<Span>, lfm: seq<Span>, m: seq<Option<nat>>, k: nat, l: nat, a: (nat, nat), b: (nat,
                       nat))
    requires Ordered(spacy) && Ordered(lfm) && Maps(spacy, lfm, m) && k < l < |spacy|
    requires Covers(m, k, a) && Covers(m, l, b) && a.0 < a.1 && b.0 < b.1
    ensures a.1 <= b.0
  {
    hide IsBest, Ordered;
    if b.0 < a.1 - 1 {
      MappingMonotone(spacy, lfm, m, b.0, a.1 - 1);
    }
  }
}
