/** src/fluent-onnx/src/context.rs, `PastState.truncate`: the rolling window over a
    context's key and value tensors, each stored flat as heads x positions x
    head_dim. */
module RollingWindow {
  import opened Sequences

  type Tensor = seq<real>
  type Layer = (Tensor, Tensor)

  /** A context's past as a value. */
  datatype Past = Past(seqLen: nat, conv: map<int, Tensor>, kv: map<int, Layer>)

  // Dropping a prefix of every row

  /** Rows of width `w`, each without its first `cut` entries. */
  ghost function KeepRows(s: Tensor, rows: nat, w: nat, cut: nat): Tensor
    requires cut <= w && rows * w <= |s|
  {
    if rows == 0 then []
    else
      RowBounds(rows, rows - 1, w);
      KeepRows(s, rows - 1, w, cut) + s[(rows - 1) * w + cut..rows * w]
  }

  lemma RowBounds(rows: nat, r: nat, w: nat)
    requires r < rows
    ensures r * w + w == (r + 1) * w <= rows * w
  {
  }

  lemma {:induction false} KeepRowsLength(s: Tensor, rows: nat, w: nat, cut: nat)
    requires cut <= w && rows * w <= |s|
    ensures |KeepRows(s, rows, w, cut)| == rows * (w - cut)
  {
    if rows > 0 {
      RowBounds(rows, rows - 1, w);
      RowBounds(rows, rows - 1, w - cut);
      KeepRowsLength(s, rows - 1, w, cut);
    }
  }

  lemma {:induction false} KeepRowsAt(s: Tensor, rows: nat, w: nat, cut: nat, r: nat, x: nat)
    requires cut <= w && rows * w <= |s| && r < rows && x < w - cut
    ensures 0 <= r * (w - cut) + x < |KeepRows(s, rows, w, cut)| == rows * (w - cut)
    ensures 0 <= r * w + cut + x < |s|
    ensures KeepRows(s, rows, w, cut)[r * (w - cut) + x] == s[r * w + cut + x]
  {
    RowBounds(rows, r, w);
    RowBounds(rows, r, w - cut);
    RowBounds(rows, rows - 1, w);
    KeepRowsLength(s, rows, w, cut);
    KeepRowsLength(s, rows - 1, w, cut);
    if r < rows - 1 {
      KeepRowsAt(s, rows - 1, w, cut, r, x);
    }
  }

  lemma {:induction false} KeepRowsTwice(s: Tensor, t: Tensor, rows: nat, all: nat, w: nat, c1: nat, c2: nat)
    requires c1 + c2 <= w && rows <= all && all * w <= |s| && rows * w <= |s|
    requires |t| == all * (w - c1) && t == KeepRows(s, all, w, c1) && rows * (w - c1) <= |t|
    ensures KeepRows(t, rows, w - c1, c2) == KeepRows(s, rows, w, c1 + c2)
  {
    if rows > 0 {
      var r := rows - 1;
      RowBounds(rows, r, w);
      RowBounds(rows, r, w - c1);
      KeepRowsTwice(s, t, r, all, w, c1, c2);
      RowTwice(s, t, all, w, c1, c2, r, r * (w - c1), r * w);
    }
  }

  /** One row cut twice, at its two offsets. */
  lemma RowTwice(s: Tensor, t: Tensor, all: nat, w: nat, c1: nat, c2: nat, r: nat, at: nat, from: nat)
    requires c1 + c2 <= w && r < all && all * w <= |s| && t == KeepRows(s, all, w, c1)
    requires at == r * (w - c1) && from == r * w && at + (w - c1) <= |t| && from + w <= |s|
    ensures t[at + c2..at + (w - c1)] == s[from + (c1 + c2)..from + w]
  {
    hide KeepRows;
    var a, b := t[at + c2..at + (w - c1)], s[from + (c1 + c2)..from + w];
    forall x | 0 <= x < |a| ensures a[x] == b[x] {
      KeepRowsAt(s, all, w, c1, r, c2 + x);
      assert t[at + (c2 + x)] == s[from + c1 + (c2 + x)];
    }
  }

  // One layer

  ghost predicate Shaped(layer: Layer, len: nat, heads: nat, dim: nat) {
    |layer.0| == |layer.1| == heads * (len * dim)
  }

  ghost function LastPositions(t: Tensor, heads: nat, len: nat, keep: nat, dim: nat): Tensor
    requires keep <= len && |t| == heads * (len * dim)
  {
    Widths(len, keep, dim);
    KeepRows(t, heads, len * dim, (len - keep) * dim)
  }

  lemma Widths(len: nat, keep: nat, dim: nat)
    requires keep <= len
    ensures len * dim == (len - keep) * dim + keep * dim
    ensures 0 <= (len - keep) * dim <= len * dim
  {
  }

  /** Entry `x` of position `p` of a head is the entry of the position `len - keep`
      further on in the same head of the old tensor. */
  lemma LastPositionsAt(t: Tensor, heads: nat, len: nat, keep: nat, dim: nat, h: nat, p: nat, x: nat)
    requires keep <= len && |t| == heads * (len * dim) && h < heads && p < keep && x < dim
    ensures |LastPositions(t, heads, len, keep, dim)| == heads * (keep * dim)
    ensures 0 <= h * (keep * dim) + p * dim + x < heads * (keep * dim)
    ensures 0 <= h * (len * dim) + (len - keep + p) * dim + x < heads * (len * dim)
    ensures LastPositions(t, heads, len, keep, dim)[h * (keep * dim) + p * dim + x] ==
            t[h * (len * dim) + (len - keep + p) * dim + x]
  {
    Widths(len, keep, dim);
    RowBounds(keep, p, dim);
    KeepRowsAt(t, heads, len * dim, (len - keep) * dim, h, p * dim + x);
    assert (len - keep) * dim + p * dim == (len - keep + p) * dim;
  }

  /** Where entry `x` of position `p` of head `h` is in a flat tensor. */
  ghost function Offset(h: int, p: int, x: int, len: nat, dim: nat): int {
    h * (len * dim) + p * dim + x
  }

  /** `now` holds the last `keep` positions of every head of `was`, and nothing else. */
  ghost predicate HoldsLast(now: Tensor, was: Tensor, heads: nat, len: nat, keep: nat, dim: nat) {
    && |now| == heads * (keep * dim)
    && forall h, p, x :: 0 <= h < heads && 0 <= p < keep && 0 <= x < dim ==>
         && 0 <= Offset(h, p, x, keep, dim) < |now|
         && 0 <= Offset(h, len - keep + p, x, len, dim) < |was|
         && now[Offset(h, p, x, keep, dim)] == was[Offset(h, len - keep + p, x, len, dim)]
  }

  lemma LastPositionsHold(t: Tensor, heads: nat, len: nat, keep: nat, dim: nat)
    requires keep <= len && |t| == heads * (len * dim)
    ensures HoldsLast(LastPositions(t, heads, len, keep, dim), t, heads, len, keep, dim)
  {
    hide LastPositions;
    LastPositionsLength(t, heads, len, keep, dim);
    forall h, p, x | 0 <= h < heads && 0 <= p < keep && 0 <= x < dim
      ensures 0 <= Offset(h, p, x, keep, dim) < heads * (keep * dim)
      ensures 0 <= Offset(h, len - keep + p, x, len, dim) < |t|
      ensures LastPositions(t, heads, len, keep, dim)[Offset(h, p, x, keep, dim)] ==
              t[Offset(h, len - keep + p, x, len, dim)]
    {
      LastPositionsAt(t, heads, len, keep, dim, h, p, x);
    }
  }

  /** Which row of width `w` holds the flat index `i`. */
  lemma RowOf(rows: nat, w: nat, i: nat) returns (r: nat)
    requires i < rows * w
    ensures r < rows && r * w <= i < r * w + w
  {
    r := 0;
    while r * w + w <= i
      invariant r < rows && r * w <= i
      decreases rows - r
    {
      RowBounds(rows, r, w);
      assert (r + 1) * w < rows * w;
      r := r + 1;
    }
  }

  /** Every entry of a flat tensor is at some offset. */
  lemma OffsetReaches(heads: nat, len: nat, dim: nat, i: nat) returns (h: nat, p: nat, x: nat)
    requires i < heads * (len * dim)
    ensures h < heads && p < len && x < dim && Offset(h, p, x, len, dim) == i
  {
    h := RowOf(heads, len * dim, i);
    p := RowOf(len, dim, i - h * (len * dim));
    x := i - h * (len * dim) - p * dim;
  }

  /** That description fits one tensor only. */
  lemma HoldsLastUnique(a: Tensor, b: Tensor, was: Tensor, heads: nat, len: nat, keep: nat, dim: nat)
    requires HoldsLast(a, was, heads, len, keep, dim) && HoldsLast(b, was, heads, len, keep, dim)
    ensures a == b
  {
    hide Offset;
    forall i | 0 <= i < |a| ensures a[i] == b[i] {
      var h, p, x := OffsetReaches(heads, keep, dim, i);
    }
  }

  ghost function Cut(layer: Layer, len: nat, keep: nat, heads: nat, dim: nat): Layer
    requires keep <= len
  {
    if Shaped(layer, len, heads, dim)
    then (LastPositions(layer.0, heads, len, keep, dim), LastPositions(layer.1, heads, len, keep, dim))
    else layer
  }

  lemma LastPositionsLength(t: Tensor, heads: nat, len: nat, keep: nat, dim: nat)
    requires keep <= len && |t| == heads * (len * dim)
    ensures |LastPositions(t, heads, len, keep, dim)| == heads * (keep * dim)
  {
    Widths(len, keep, dim);
    KeepRowsLength(t, heads, len * dim, (len - keep) * dim);
  }

  lemma CutHolds(layer: Layer, len: nat, keep: nat, heads: nat, dim: nat)
    requires keep <= len
    ensures var cut := Cut(layer, len, keep, heads, dim);
            if |layer.0| == |layer.1| == heads * (len * dim)
            then HoldsLast(cut.0, layer.0, heads, len, keep, dim) && HoldsLast(cut.1, layer.1, heads, len, keep, dim)
            else cut == layer
  {
    hide HoldsLast, LastPositions;
    if Shaped(layer, len, heads, dim) {
      LastPositionsHold(layer.0, heads, len, keep, dim);
      LastPositionsHold(layer.1, heads, len, keep, dim);
    }
  }

  lemma LastPositionsTwice(t: Tensor, heads: nat, len: nat, a: nat, b: nat, dim: nat)
    requires b <= a <= len && |t| == heads * (len * dim)
    ensures |LastPositions(t, heads, len, a, dim)| == heads * (a * dim)
    ensures LastPositions(LastPositions(t, heads, len, a, dim), heads, a, b, dim) ==
            LastPositions(t, heads, len, b, dim)
  {
    LastPositionsLength(t, heads, len, a, dim);
    Widths(len, a, dim);
    Widths(a, b, dim);
    Widths(len, b, dim);
    KeepRowsTwice(t, LastPositions(t, heads, len, a, dim), heads, heads, len * dim, (len - a) * dim, (a - b) * dim);
    assert (len - a) * dim + (a - b) * dim == (len - b) * dim;
  }

  /** Cutting a layer to `a` and then to `b` is cutting it to `b`, unless it fits the
      window `a` without fitting the length it is meant to have. */
  lemma CutTwice(layer: Layer, len: nat, a: nat, b: nat, heads: nat, dim: nat)
    requires b < a < len
    ensures Cut(Cut(layer, len, a, heads, dim), a, b, heads, dim) == Cut(layer, len, b, heads, dim)
            <==> (Shaped(layer, a, heads, dim) ==> Shaped(layer, len, heads, dim))
  {
    if Shaped(layer, len, heads, dim) {
      LastPositionsTwice(layer.0, heads, len, a, b, dim);
      LastPositionsTwice(layer.1, heads, len, a, b, dim);
    } else if Shaped(layer, a, heads, dim) {
      LastPositionsLength(layer.0, heads, a, b, dim);
      SizesDiffer(heads, len, a, b, dim);
    }
  }

  lemma SizesDiffer(heads: nat, len: nat, a: nat, b: nat, dim: nat)
    requires b < a < len && heads * (a * dim) != heads * (len * dim)
    ensures heads * (b * dim) != heads * (a * dim)
  {
  }

  // The whole state

  ghost function Truncated(past: Past, maxSeq: nat, heads: nat, dim: nat): Past {
    if past.seqLen <= maxSeq then past
    else Past(maxSeq, past.conv, map l | l in past.kv :: Cut(past.kv[l], past.seqLen, maxSeq, heads, dim))
  }

  ghost predicate WellShaped(past: Past, heads: nat, dim: nat) {
    forall l | l in past.kv :: Shaped(past.kv[l], past.seqLen, heads, dim)
  }

  /** No layer fits a window it was not meant for. */
  ghost predicate NoStrayFit(past: Past, window: nat, heads: nat, dim: nat) {
    forall l | l in past.kv :: Shaped(past.kv[l], window, heads, dim) ==> Shaped(past.kv[l], past.seqLen, heads, dim)
  }

  lemma TruncateKeepsShape(past: Past, maxSeq: nat, heads: nat, dim: nat)
    requires WellShaped(past, heads, dim)
    ensures WellShaped(Truncated(past, maxSeq, heads, dim), heads, dim)
    ensures Truncated(past, maxSeq, heads, dim).seqLen <= maxSeq
  {
    if past.seqLen > maxSeq {
      forall l | l in past.kv
        ensures Shaped(Cut(past.kv[l], past.seqLen, maxSeq, heads, dim), maxSeq, heads, dim)
      {
        LastPositionsLength(past.kv[l].0, heads, past.seqLen, maxSeq, dim);
        LastPositionsLength(past.kv[l].1, heads, past.seqLen, maxSeq, dim);
      }
    }
  }

  /** Two windows in turn act as the smaller one exactly when no layer of the wrong
      size happens to have the size of the first window. */
  lemma TruncateComposes(past: Past, a: nat, b: nat, heads: nat, dim: nat)
    requires b < a < past.seqLen
    ensures Truncated(Truncated(past, a, heads, dim), b, heads, dim) == Truncated(past, b, heads, dim)
            <==> NoStrayFit(past, a, heads, dim)
  {
    hide Cut, Shaped;
    var twice, once := Truncated(Truncated(past, a, heads, dim), b, heads, dim), Truncated(past, b, heads, dim);
    forall l | l in past.kv
      ensures twice.kv[l] == once.kv[l]
              <==> (Shaped(past.kv[l], a, heads, dim) ==> Shaped(past.kv[l], past.seqLen, heads, dim))
    {
      CutTwice(past.kv[l], past.seqLen, a, b, heads, dim);
    }
    if NoStrayFit(past, a, heads, dim) {
      assert twice.kv.Keys == once.kv.Keys == past.kv.Keys;
      forall l | l in past.kv ensures twice.kv[l] == once.kv[l] {
        assert Shaped(past.kv[l], a, heads, dim) ==> Shaped(past.kv[l], past.seqLen, heads, dim);
      }
      assert twice.kv == once.kv;
    }
  }

  lemma StrayLayerIsCutTwice() returns (past: Past)
    ensures past.seqLen == 3 && past.kv.Keys == {0} && |past.kv[0].0| == 2
    ensures |Truncated(past, 1, 1, 1).kv[0].0| == 2
    ensures |Truncated(Truncated(past, 2, 1, 1), 1, 1, 1).kv[0].0| == 1
  {
    var layer := ([1.0, 2.0], [1.0, 2.0]);
    past := Past(3, map[], map[0 := layer]);
    LastPositionsLength(layer.0, 1, 2, 1, 1);
  }

  /** The layers in `done` are cut, the others as before. */
  ghost predicate CutSome(before: map<int, Layer>, after: map<int, Layer>, done: set<int>, len: nat, keep: nat,
                          heads: nat, dim: nat)
    requires keep <= len
  {
    && after.Keys == before.Keys
    && forall l | l in before :: after[l] == if l in done then Cut(before[l], len, keep, heads, dim) else before[l]
  }

  lemma CutNone(before: map<int, Layer>, len: nat, keep: nat, heads: nat, dim: nat)
    requires keep <= len
    ensures CutSome(before, before, Elems<int>([]), len, keep, heads, dim)
  {
  }

  lemma CutKeys(before: map<int, Layer>, after: map<int, Layer>, done: set<int>, len: nat, keep: nat, heads: nat,
                dim: nat)
    requires keep <= len && CutSome(before, after, done, len, keep, heads, dim)
    ensures after.Keys == before.Keys
  {
  }

  lemma CutOneMore(before: map<int, Layer>, after: map<int, Layer>, done: set<int>, len: nat, keep: nat, heads: nat,
                   dim: nat, l: int)
    requires keep <= len && CutSome(before, after, done, len, keep, heads, dim) && l in before && l !in done
    ensures l in after
    ensures CutSome(before, after[l := Cut(after[l], len, keep, heads, dim)], done + {l}, len, keep, heads, dim)
  {
    hide Cut;
  }

  lemma CutAll(before: map<int, Layer>, after: map<int, Layer>, len: nat, keep: nat, heads: nat, dim: nat)
    requires keep <= len && CutSome(before, after, before.Keys, len, keep, heads, dim)
    ensures after == map l | l in before :: Cut(before[l], len, keep, heads, dim)
  {
    hide Cut;
    var all := map l | l in before :: Cut(before[l], len, keep, heads, dim);
    assert all.Keys == after.Keys;
    assert forall l | l in before.Keys :: after[l] == all[l];
  }

  class PastState {
    var seqLen: nat
    var conv: map<int, Tensor>
    var kv: map<int, Layer>

    ghost function Contents(): Past
      reads this
    {
      Past(seqLen, conv, kv)
    }

    /** Returns the number of positions dropped. */
    method Truncate(maxSeq: nat, heads: nat, dim: nat) returns (dropped: nat)
      modifies this
      ensures Contents() == Truncated(old(Contents()), maxSeq, heads, dim)
      ensures seqLen == if old(seqLen) <= maxSeq then old(seqLen) else maxSeq
      ensures dropped == old(seqLen) - seqLen
      ensures conv == old(conv) && kv.Keys == old(kv.Keys)
      ensures forall l | l in kv ::
                var key, value := old(kv)[l].0, old(kv)[l].1;
                if old(seqLen) > maxSeq && |key| == |value| == heads * (old(seqLen) * dim)
                then && HoldsLast(kv[l].0, key, heads, old(seqLen), maxSeq, dim)
                     && HoldsLast(kv[l].1, value, heads, old(seqLen), maxSeq, dim)
                else kv[l] == (key, value)
    {
      hide Cut, HoldsLast;
      if seqLen <= maxSeq {
        return 0;
      }
      var drop := seqLen - maxSeq;
      var keep := maxSeq;
      ghost var before := kv;
      var layers := Enumerate(kv.Keys);
      hide CutSome;
      CutNone(before, seqLen, keep, heads, dim);
      for i := 0 to |layers|
        invariant seqLen == old(seqLen) && conv == old(conv)
        invariant CutSome(before, kv, Elems(layers[..i]), seqLen, keep, heads, dim)
      {
        var l := layers[i];
        assert l !in Elems(layers[..i]) by { NoDupPrefix(layers, i); }
        assert layers[..i + 1] == layers[..i] + [l];
        ElemsAppend(layers[..i], l);
        CutKeys(before, kv, Elems(layers[..i]), seqLen, keep, heads, dim);
        var cut := CutLayer(kv[l], seqLen, keep, heads, dim);
        CutOneMore(before, kv, Elems(layers[..i]), seqLen, keep, heads, dim, l);
        kv := kv[l := cut];
      }
      assert layers[..|layers|] == layers;
      CutAll(before, kv, seqLen, keep, heads, dim);
      forall l | l in kv
        ensures if |before[l].0| == |before[l].1| == heads * (seqLen * dim)
                then HoldsLast(kv[l].0, before[l].0, heads, seqLen, keep, dim) &&
                     HoldsLast(kv[l].1, before[l].1, heads, seqLen, keep, dim)
                else kv[l] == before[l]
      {
        CutHolds(before[l], seqLen, keep, heads, dim);
      }
      seqLen := keep;
      return drop;
    }
  }

  method CutLayer(layer: Layer, len: nat, keep: nat, heads: nat, dim: nat) returns (r: Layer)
    requires keep < len
    ensures r == Cut(layer, len, keep, heads, dim)
    ensures if |layer.0| == |layer.1| == heads * (len * dim)
            then HoldsLast(r.0, layer.0, heads, len, keep, dim) && HoldsLast(r.1, layer.1, heads, len, keep, dim)
            else r == layer
  {
    hide HoldsLast;
    CutHolds(layer, len, keep, heads, dim);
    var expected := heads * (len * dim);
    if |layer.0| != expected || |layer.1| != expected {
      return layer;
    }
    var key := CopyRows(layer.0, heads, len, keep, dim);
    var value := CopyRows(layer.1, heads, len, keep, dim);
    return (key, value);
  }

  /** The copy loop over heads and positions. */
  method CopyRows(t: Tensor, heads: nat, len: nat, keep: nat, dim: nat) returns (r: Tensor)
    requires keep <= len && |t| == heads * (len * dim)
    ensures r == LastPositions(t, heads, len, keep, dim)
  {
    r := [];
    var w := len * dim;
    ghost var cut := (len - keep) * dim;
    Widths(len, keep, dim);
    assert 0 * w == 0;
    for head := 0 to heads
      invariant head * w <= |t|
      invariant r == KeepRows(t, head, w, cut)
    {
      RowBounds(heads, head, w);
      var base := head * w;
      assert t[base + cut..base + cut] == [];
      for pos := len - keep to len
        invariant 0 <= cut <= pos * dim <= w
        invariant r == KeepRows(t, head, w, cut) + t[base + cut..base + pos * dim]
      {
        RowBounds(len, pos, dim);
        var start := base + pos * dim;
        assert t[base + cut..start + dim] == t[base + cut..start] + t[start..start + dim];
        r := r + t[start..start + dim];
      }
      assert base + len * dim == (head + 1) * w;
    }
  }
}
