/** The sparse index algebra of lp_utils.py: relation-stacked adjacency
    indices, the block-diagonal offsets of a batched sparse product, row and
    column sums redistributed to the stored entries, block-diagonal
    assembly and the in-place triangular mask. */
module Sparse {
  import opened Common

  // ---------------------------------------------------------------------
  // adj, adj_triples, adj_triples_tensor

  /** Coordinates of a sparse matrix together with its size. */
  datatype SparseIndex = SparseIndex(pairs: seq<(nat, nat)>, height: nat, width: nat)

  /** The size of r relation blocks of n x n: stacked vertically (r*n, n),
      horizontally (n, r*n). */
  function StackedSize(n: nat, r: nat, vertical: bool): (nat, nat) {
    if vertical then (r * n, n) else (n, r * n)
  }

  /** The first row (or column) of relation rel's n x n block. */
  function BlockStart(rel: nat, n: nat): nat {
    rel * n
  }

  /** Every index moved up by the same offset. */
  function Shifted(xs: seq<nat>, offset: nat): (r: seq<nat>)
    ensures |r| == |xs| && forall i | 0 <= i < |xs| :: r[i] == offset + xs[i]
  {
    seq(|xs|, i requires 0 <= i < |xs| => offset + xs[i])
  }

  /** Where the edge (s, rel, o) lands: relation rel's block starts at row
      rel*n when stacking vertically and at column rel*n otherwise. */
  function Place(s: nat, rel: nat, o: nat, n: nat, vertical: bool): (nat, nat) {
    if vertical then (BlockStart(rel, n) + s, o) else (s, BlockStart(rel, n) + o)
  }

  /** Every coordinate lies inside the given size. */
  predicate InBounds(pairs: seq<(nat, nat)>, height: nat, width: nat) {
    forall k | 0 <= k < |pairs| :: pairs[k].0 < height && pairs[k].1 < width
  }

  /** The closing checks of all three builders: the maximum of an empty
      index column raises, and each column's maximum must lie below the
      size. */
  function Checked(pairs: seq<(nat, nat)>, size: (nat, nat)): (r: Result<SparseIndex>)
    ensures r.Ok? <==> pairs != [] && InBounds(pairs, size.0, size.1)
    ensures r.Ok? ==> r.value == SparseIndex(pairs, size.0, size.1)
    ensures r.Err? ==> r.error == (if pairs == [] then RuntimeError else AssertionError)
  {
    if pairs == [] then Err(RuntimeError)
    else if !InBounds(pairs, size.0, size.1) then Err(AssertionError)
    else Ok(SparseIndex(pairs, size.0, size.1))
  }

  /** adj_triples_tensor: one coordinate per triple, computed column-wise. */
  function AdjTriplesTensor(triples: seq<Triple>, n: nat, r: nat, vertical: bool): Result<SparseIndex> {
    var pairs := seq(|triples|, k requires 0 <= k < |triples| =>
      Place(triples[k].s, triples[k].p, triples[k].o, n, vertical));
    Checked(pairs, StackedSize(n, r, vertical))
  }

  /** adj_triples: the same coordinates, appended triple by triple. */
  method AdjTriples(triples: seq<Triple>, n: nat, r: nat, vertical: bool) returns (res: Result<SparseIndex>)
    ensures res == AdjTriplesTensor(triples, n, r, vertical)
  {
    var fromIndices: seq<nat> := [];
    var uptoIndices: seq<nat> := [];
    for k := 0 to |triples|
      invariant |fromIndices| == |uptoIndices| == k
      invariant forall m | 0 <= m < k ::
        (fromIndices[m], uptoIndices[m]) == Place(triples[m].s, triples[m].p, triples[m].o, n, vertical)
    {
      var fr, to := triples[k].s, triples[k].o;
      var offset := triples[k].p * n;
      if vertical {
        fr := offset + fr;
      } else {
        to := offset + to;
      }
      fromIndices := fromIndices + [fr];
      uptoIndices := uptoIndices + [to];
    }
    var pairs := seq(|triples|, k requires 0 <= k < |triples| => (fromIndices[k], uptoIndices[k]));
    assert pairs == seq(|triples|, k requires 0 <= k < |triples| =>
      Place(triples[k].s, triples[k].p, triples[k].o, n, vertical));
    res := Checked(pairs, StackedSize(n, r, vertical));
  }

  /** Triples of known relations over n nodes always pass the checks, and
      the k-th coordinate is the k-th triple's place. */
  lemma AdjTriplesInRange(triples: seq<Triple>, n: nat, r: nat, vertical: bool)
    requires triples != []
    requires forall t | t in triples :: t.s < n && t.p < r && t.o < n
    ensures AdjTriplesTensor(triples, n, r, vertical).Ok?
    ensures forall k | 0 <= k < |triples| ::
      AdjTriplesTensor(triples, n, r, vertical).value.pairs[k]
        == Place(triples[k].s, triples[k].p, triples[k].o, n, vertical)
  {
    forall k | 0 <= k < |triples|
      ensures Place(triples[k].s, triples[k].p, triples[k].o, n, vertical).0 < StackedSize(n, r, vertical).0
      ensures Place(triples[k].s, triples[k].p, triples[k].o, n, vertical).1 < StackedSize(n, r, vertical).1
    {
      assert triples[k] in triples;
      BlockBelow(triples[k].p, r, n, if vertical then triples[k].s else triples[k].o);
    }
  }

  lemma BlockBelow(b: nat, r: nat, n: nat, x: nat)
    requires b < r && x < n
    ensures b * n + x < r * n
  {
    MulAtMost(b, r, n);
  }

  /** Blocks do not overlap: an offset coordinate determines its block and
      its position within the block. */
  lemma BlockUnique(b1: nat, x1: nat, b2: nat, x2: nat, n: nat)
    requires x1 < n && x2 < n
    requires b1 * n + x1 == b2 * n + x2
    ensures b1 == b2 && x1 == x2
  {
    if b1 < b2 {
      MulAtMost(b1, b2, n);
    } else if b2 < b1 {
      MulAtMost(b2, b1, n);
    }
  }

  /** Reading a coordinate back: block index and offset by division and
      remainder. */
  function Unplace(pair: (nat, nat), n: nat, vertical: bool): Triple
    requires n > 0
  {
    if vertical then Triple(pair.0 % n, pair.0 / n, pair.1)
    else Triple(pair.0, pair.1 / n, pair.1 % n)
  }

  /** Placement loses nothing for in-range nodes: reading back the
      coordinate gives the triple again, so distinct triples get distinct
      coordinates. */
  lemma PlaceRoundTrip(t: Triple, n: nat, vertical: bool)
    requires (if vertical then t.s else t.o) < n
    ensures n > 0 && Unplace(Place(t.s, t.p, t.o, n, vertical), n, vertical) == t
  {
    var x := if vertical then t.s else t.o;
    var q := BlockStart(t.p, n) + x;
    assert Place(t.s, t.p, t.o, n, vertical) == if vertical then (q, t.o) else (t.s, q);
    var q', r' := q / n, q % n;
    assert q == q' * n + r';
    BlockUnique(t.p, x, q', r', n);
  }

  /** An edge dictionary in insertion order: relation id, source list,
      target list. */
  datatype EdgeList = EdgeList(rel: nat, fr: seq<nat>, to: seq<nat>)

  /** The row coordinates of one relation: its sources, shifted into its
      block when stacking vertically. */
  function RelFrom(e: EdgeList, n: nat, vertical: bool): seq<nat> {
    if vertical then Shifted(e.fr, BlockStart(e.rel, n)) else e.fr
  }

  /** The column coordinates of one relation: its targets, shifted into its
      block when stacking horizontally. */
  function RelUpto(e: EdgeList, n: nat, vertical: bool): seq<nat> {
    if vertical then e.to else Shifted(e.to, BlockStart(e.rel, n))
  }

  /** The row coordinates adj collects from the first k relations. */
  function FromIndices(edges: seq<EdgeList>, k: nat, n: nat, vertical: bool): seq<nat>
    requires k <= |edges|
  {
    if k == 0 then []
    else
      FromIndices(edges, k - 1, n, vertical) + RelFrom(edges[k - 1], n, vertical)
  }

  /** The column coordinates adj collects from the first k relations. */
  function UptoIndices(edges: seq<EdgeList>, k: nat, n: nat, vertical: bool): seq<nat>
    requires k <= |edges|
  {
    if k == 0 then []
    else
      UptoIndices(edges, k - 1, n, vertical) + RelUpto(edges[k - 1], n, vertical)
  }

  /** The dictionary's relation ids are its keys, hence distinct. */
  predicate DistinctRels(edges: seq<EdgeList>) {
    forall i, j | 0 <= i < j < |edges| :: edges[i].rel != edges[j].rel
  }

  /** adj: extends the index lists relation by relation. Building the 2 x m
      index tensor from lists of unequal length raises ValueError; then the
      same closing checks as adj_triples apply, with r = number of keys. */
  method Adj(edges: seq<EdgeList>, n: nat, vertical: bool) returns (res: Result<SparseIndex>)
    requires DistinctRels(edges)
    ensures |FromIndices(edges, |edges|, n, vertical)| != |UptoIndices(edges, |edges|, n, vertical)| ==>
      res == Err(ValueError)
    ensures |FromIndices(edges, |edges|, n, vertical)| == |UptoIndices(edges, |edges|, n, vertical)| ==>
      var fs, us := FromIndices(edges, |edges|, n, vertical), UptoIndices(edges, |edges|, n, vertical);
      res == Checked(seq(|fs|, k requires 0 <= k < |fs| => (fs[k], us[k])), StackedSize(n, |edges|, vertical))
  {
    var fromIndices: seq<nat> := [];
    var uptoIndices: seq<nat> := [];
    for k := 0 to |edges|
      invariant fromIndices == FromIndices(edges, k, n, vertical)
      invariant uptoIndices == UptoIndices(edges, k, n, vertical)
    {
      var e := edges[k];
      var offset := BlockStart(e.rel, n);
      var fr, to := e.fr, e.to;
      if vertical {
        fr := seq(|fr|, i requires 0 <= i < |fr| => offset + fr[i]);
      } else {
        to := seq(|to|, i requires 0 <= i < |to| => offset + to[i]);
      }
      fromIndices := fromIndices + fr;
      uptoIndices := uptoIndices + to;
    }
    if |fromIndices| != |uptoIndices| {
      return Err(ValueError);
    }
    var pairs := seq(|fromIndices|, k requires 0 <= k < |fromIndices| => (fromIndices[k], uptoIndices[k]));
    res := Checked(pairs, StackedSize(n, |edges|, vertical));
  }

  /** The triples of one relation, source by source. */
  function RelTriples(e: EdgeList): seq<Triple>
    requires |e.fr| == |e.to|
  {
    seq(|e.fr|, i requires 0 <= i < |e.fr| => Triple(e.fr[i], e.rel, e.to[i]))
  }

  /** Coordinate lists fs, us hold, position by position, the placement of
      the triples ts. */
  predicate Placed(ts: seq<Triple>, fs: seq<nat>, us: seq<nat>, n: nat, vertical: bool) {
    && |fs| == |ts| && |us| == |ts|
    && forall m | 0 <= m < |ts| :: (fs[m], us[m]) == Place(ts[m].s, ts[m].p, ts[m].o, n, vertical)
  }

  /** The triples an edge dictionary stands for, relation by relation. */
  function EdgeTriples(edges: seq<EdgeList>, k: nat): seq<Triple>
    requires k <= |edges|
    requires forall i | 0 <= i < |edges| :: |edges[i].fr| == |edges[i].to|
  {
    if k == 0 then []
    else
      EdgeTriples(edges, k - 1) + RelTriples(edges[k - 1])
  }

  /** With balanced source and target lists, adj's coordinates are exactly
      adj_triples' coordinates for the dictionary's triples, in the same
      order. */
  lemma {:induction false} AdjAgreesWithTriples(edges: seq<EdgeList>, k: nat, n: nat, vertical: bool)
    requires k <= |edges|
    requires forall i | 0 <= i < |edges| :: |edges[i].fr| == |edges[i].to|
    ensures Placed(EdgeTriples(edges, k), FromIndices(edges, k, n, vertical), UptoIndices(edges, k, n, vertical), n, vertical)
  {
    if k > 0 {
      AdjAgreesWithTriples(edges, k - 1, n, vertical);
      var e := edges[k - 1];
      RelPlaced(e, n, vertical);
      PlacedAppend(EdgeTriples(edges, k - 1), FromIndices(edges, k - 1, n, vertical), UptoIndices(edges, k - 1, n, vertical),
                   RelTriples(e), RelFrom(e, n, vertical), RelUpto(e, n, vertical), n, vertical);
    }
  }

  /** One relation's own coordinates are the placements of its triples. */
  lemma RelPlaced(e: EdgeList, n: nat, vertical: bool)
    requires |e.fr| == |e.to|
    ensures Placed(RelTriples(e), RelFrom(e, n, vertical), RelUpto(e, n, vertical), n, vertical)
  {
  }

  /** Placement lists concatenate. */
  lemma PlacedAppend(ts: seq<Triple>, fs: seq<nat>, us: seq<nat>, ts2: seq<Triple>, fs2: seq<nat>, us2: seq<nat>,
                     n: nat, vertical: bool)
    requires Placed(ts, fs, us, n, vertical) && Placed(ts2, fs2, us2, n, vertical)
    ensures Placed(ts + ts2, fs + fs2, us + us2, n, vertical)
  {
    forall m | 0 <= m < |ts + ts2|
      ensures ((fs + fs2)[m], (us + us2)[m]) == Place((ts + ts2)[m].s, (ts + ts2)[m].p, (ts + ts2)[m].o, n, vertical)
    {
      if m < |ts| {
        assert (ts + ts2)[m] == ts[m] && (fs + fs2)[m] == fs[m] && (us + us2)[m] == us[m];
      } else {
        var i := m - |ts|;
        assert (ts + ts2)[m] == ts2[i] && (fs + fs2)[m] == fs2[i] && (us + us2)[m] == us2[i];
      }
    }
  }

  // ---------------------------------------------------------------------
  // batchmm: block-diagonal offsets

  /** Batch element b's coordinates, shifted into the b-th diagonal block of
      a (b*height) x (b*width) matrix. */
  function Offset(idx: seq<(nat, nat)>, b: nat, height: nat, width: nat): (r: seq<(nat, nat)>)
    ensures |r| == |idx|
  {
    seq(|idx|, k requires 0 <= k < |idx| => (b * height + idx[k].0, b * width + idx[k].1))
  }

  /** The flattened coordinates batchmm hands to the sparse product. */
  function BatchIndices(idxs: seq<seq<(nat, nat)>>, height: nat, width: nat): seq<(nat, nat)> {
    Concat(seq(|idxs|, b requires 0 <= b < |idxs| => Offset(idxs[b], b, height, width)))
  }

  /** Every column coordinate is below w. */
  predicate ColsBelow(pairs: seq<(nat, nat)>, w: nat) {
    forall k | 0 <= k < |pairs| :: pairs[k].1 < w
  }

  lemma ColsBelowAppend(a: seq<(nat, nat)>, b: seq<(nat, nat)>, w: nat)
    requires ColsBelow(a, w) && ColsBelow(b, w)
    ensures ColsBelow(a + b, w)
  {
    forall k | 0 <= k < |a + b| ensures (a + b)[k].1 < w {
      if k >= |a| {
        assert (a + b)[k] == b[k - |a|];
      }
    }
  }

  /** The product of a sparse matrix with a dense column: entry `row` sums
      value * x[column] over the stored entries in that row. */
  function MatVec(idx: seq<(nat, nat)>, vals: seq<int>, x: seq<int>, row: int): int
    requires |vals| == |idx| && ColsBelow(idx, |x|)
  {
    if idx == [] then 0
    else
      var m := |idx| - 1;
      MatVec(idx[..m], vals[..m], x, row) + (if idx[m].0 == row then vals[m] * x[idx[m].1] else 0)
  }

  lemma {:induction false} MatVecAppend(a: seq<(nat, nat)>, va: seq<int>, b: seq<(nat, nat)>, vb: seq<int>, x: seq<int>, row: int)
    requires |va| == |a| && |vb| == |b| && ColsBelow(a, |x|) && ColsBelow(b, |x|)
    ensures ColsBelow(a + b, |x|)
    ensures MatVec(a + b, va + vb, x, row) == MatVec(a, va, x, row) + MatVec(b, vb, x, row)
    decreases |b|
  {
    ColsBelowAppend(a, b, |x|);
    if b != [] {
      var m := |b| - 1;
      assert (a + b)[..|a| + m] == a + b[..m];
      assert (va + vb)[..|a| + m] == va + vb[..m];
      MatVecAppend(a, va, b[..m], vb[..m], x, row);
    } else {
      assert a + b == a && va + vb == va;
    }
  }

  /** A dense batch of rectangular sparse matrices, all entries in range. */
  predicate BatchShape(idxs: seq<seq<(nat, nat)>>, valss: seq<seq<int>>, xs: seq<seq<int>>, height: nat, width: nat) {
    && |valss| == |idxs| == |xs|
    && (forall b | 0 <= b < |idxs| :: |valss[b]| == |idxs[b]| && |xs[b]| == width)
    && (forall b | 0 <= b < |idxs| :: InBounds(idxs[b], height, width))
  }

  /** `flat` holds the dense columns `xs`, each of length `width`, one after
      the other. */
  predicate Stacked(flat: seq<int>, xs: seq<seq<int>>, width: nat) {
    && |flat| == |xs| * width
    && (forall b | 0 <= b < |xs| :: |xs[b]| == width)
    && forall b, j | 0 <= b < |xs| && 0 <= j < width :: b * width + j < |flat| && flat[b * width + j] == xs[b][j]
  }

  /** The offset coordinates of the first mm batch elements. */
  function Offsets(idxs: seq<seq<(nat, nat)>>, height: nat, width: nat, mm: nat): (r: seq<seq<(nat, nat)>>)
    requires mm <= |idxs|
    ensures |r| == mm && forall m | 0 <= m < mm :: r[m] == Offset(idxs[m], m, height, width)
  {
    seq(mm, m requires 0 <= m < mm => Offset(idxs[m], m, height, width))
  }

  lemma ConcatLast<T>(xss: seq<seq<T>>)
    requires xss != []
    ensures Concat(xss) == Concat(xss[..|xss| - 1]) + xss[|xss| - 1]
  {
  }

  /** One block's entries, multiplied against the stacked columns, only
      reach rows of their own block, where they act on their own column. */
  lemma {:induction false} OffsetBlock(idx: seq<(nat, nat)>, vals: seq<int>, m: nat, b: nat, i: nat,
                                       height: nat, width: nat, flat: seq<int>, x: seq<int>, k: nat)
    requires |vals| == |idx| && k <= |idx| && InBounds(idx, height, width) && i < height
    requires m * width + width <= |flat|
    requires m == b ==> |x| == width && forall j | 0 <= j < width :: flat[m * width + j] == x[j]
    ensures ColsBelow(Offset(idx, m, height, width), |flat|)
    ensures MatVec(Offset(idx, m, height, width)[..k], vals[..k], flat, b * height + i)
      == if m == b then MatVec(idx[..k], vals[..k], x, i) else 0
  {
    var off := Offset(idx, m, height, width);
    assert ColsBelow(off[..k], |flat|);
    if k > 0 {
      OffsetBlock(idx, vals, m, b, i, height, width, flat, x, k - 1);
      assert off[..k][..k - 1] == off[..k - 1];
      assert vals[..k][..k - 1] == vals[..k - 1];
      assert idx[..k][..k - 1] == idx[..k - 1];
      var entry := idx[k - 1];
      assert off[k - 1] == (m * height + entry.0, m * width + entry.1);
      if m * height + entry.0 == b * height + i {
        BlockUnique(m, entry.0, b, i, height);
      }
    }
  }

  /** The flattened coordinates and values of the first mm blocks end with
      block mm - 1. */
  lemma OffsetsSplit(idxs: seq<seq<(nat, nat)>>, valss: seq<seq<int>>, height: nat, width: nat, mm: nat)
    requires 0 < mm <= |idxs| && |valss| == |idxs|
    ensures Concat(Offsets(idxs, height, width, mm))
      == Concat(Offsets(idxs, height, width, mm - 1)) + Offset(idxs[mm - 1], mm - 1, height, width)
    ensures Concat(valss[..mm]) == Concat(valss[..mm - 1]) + valss[mm - 1]
  {
    var m := mm - 1;
    var offs := Offsets(idxs, height, width, mm);
    assert offs[..m] == Offsets(idxs, height, width, m);
    ConcatLast(offs);
    assert valss[..mm][..m] == valss[..m];
    ConcatLast(valss[..mm]);
  }

  /** Block m's offset columns stay inside n stacked columns of the given width. */
  lemma OffsetColsBelow(idx: seq<(nat, nat)>, m: nat, n: nat, height: nat, width: nat)
    requires m < n && InBounds(idx, height, width)
    ensures ColsBelow(Offset(idx, m, height, width), n * width)
  {
    var B := Offset(idx, m, height, width);
    forall k | 0 <= k < |B| ensures B[k].1 < n * width {
      BlockBelow(m, n, width, idx[k].1);
    }
  }

  /** The stacked-column facts one block needs. */
  lemma StackedBlock(flat: seq<int>, xs: seq<seq<int>>, width: nat, m: nat)
    requires Stacked(flat, xs, width) && m < |xs| && |xs[m]| == width
    ensures m * width + width <= |flat|
    ensures forall j | 0 <= j < width :: flat[m * width + j] == xs[m][j]
  {
    MulAtMost(m, |xs|, width);
  }

  /** The flattened product of the first mm blocks, read at a row of block b. */
  lemma {:induction false} BatchPrefix(idxs: seq<seq<(nat, nat)>>, valss: seq<seq<int>>, xs: seq<seq<int>>,
                                       height: nat, width: nat, flat: seq<int>, mm: nat, b: nat, i: nat)
    requires BatchShape(idxs, valss, xs, height, width) && Stacked(flat, xs, width)
    requires mm <= |idxs| && b < |idxs| && i < height
    ensures |Concat(valss[..mm])| == |Concat(Offsets(idxs, height, width, mm))|
    ensures ColsBelow(Concat(Offsets(idxs, height, width, mm)), |flat|)
    ensures MatVec(Concat(Offsets(idxs, height, width, mm)), Concat(valss[..mm]), flat, b * height + i)
      == if b < mm then MatVec(idxs[b], valss[b], xs[b], i) else 0
  {
    BatchIndicesShape(idxs, valss, xs, height, width, mm);
    if mm > 0 {
      var m := mm - 1;
      BatchPrefix(idxs, valss, xs, height, width, flat, m, b, i);
      OffsetsSplit(idxs, valss, height, width, mm);
      var row := b * height + i;
      var A, VA := Concat(Offsets(idxs, height, width, m)), Concat(valss[..m]);
      var B, VB := Offset(idxs[m], m, height, width), valss[m];
      LastBlock(idxs, valss, xs, height, width, flat, m, b, i);
      MatVecAppend(A, VA, B, VB, flat, row);
    }
  }

  /** Block m of the flattened product, read at a row of block b. */
  lemma LastBlock(idxs: seq<seq<(nat, nat)>>, valss: seq<seq<int>>, xs: seq<seq<int>>,
                  height: nat, width: nat, flat: seq<int>, m: nat, b: nat, i: nat)
    requires BatchShape(idxs, valss, xs, height, width) && Stacked(flat, xs, width)
    requires m < |idxs| && b < |idxs| && i < height
    ensures ColsBelow(Offset(idxs[m], m, height, width), |flat|)
    ensures MatVec(Offset(idxs[m], m, height, width), valss[m], flat, b * height + i)
      == if m == b then MatVec(idxs[b], valss[b], xs[b], i) else 0
  {
    var B, VB := Offset(idxs[m], m, height, width), valss[m];
    StackedBlock(flat, xs, width, m);
    OffsetBlock(idxs[m], VB, m, b, i, height, width, flat, xs[b], |idxs[m]|);
    assert B[..|B|] == B && VB[..|VB|] == VB && idxs[m][..|idxs[m]|] == idxs[m];
  }

  /** The shape facts of the flattened product: one value per coordinate,
      every column inside the stacked dense columns. */
  lemma {:induction false} BatchIndicesShape(idxs: seq<seq<(nat, nat)>>, valss: seq<seq<int>>, xs: seq<seq<int>>,
                                             height: nat, width: nat, mm: nat)
    requires BatchShape(idxs, valss, xs, height, width) && mm <= |idxs|
    ensures |Concat(valss[..mm])| == |Concat(Offsets(idxs, height, width, mm))|
    ensures ColsBelow(Concat(Offsets(idxs, height, width, mm)), |xs| * width)
  {
    var n := |xs| * width;
    if mm == 0 {
      assert valss[..0] == [] && Offsets(idxs, height, width, 0) == [];
    } else {
      var m := mm - 1;
      BatchIndicesShape(idxs, valss, xs, height, width, m);
      OffsetsSplit(idxs, valss, height, width, mm);
      var A, B := Concat(Offsets(idxs, height, width, m)), Offset(idxs[m], m, height, width);
      var VA, VB := Concat(valss[..m]), valss[m];
      assert |VB| == |idxs[m]| == |B|;
      assert |VA + VB| == |A + B|;
      assert InBounds(idxs[m], height, width);
      OffsetColsBelow(idxs[m], m, |xs|, height, width);
      ColsBelowAppend(A, B, n);
    }
  }

  /** batchmm for one dense column per batch element: the flattened product
      against the stacked columns, viewed as (b, height). */
  function BatchMM(idxs: seq<seq<(nat, nat)>>, valss: seq<seq<int>>, xs: seq<seq<int>>, height: nat, width: nat)
    : (r: seq<seq<int>>)
    requires BatchShape(idxs, valss, xs, height, width)
    ensures |r| == |idxs| && forall b | 0 <= b < |r| :: |r[b]| == height
  {
    ConcatIndex(xs, width);
    BatchIndicesShape(idxs, valss, xs, height, width, |idxs|);
    assert valss[..|idxs|] == valss;
    var flat := BatchIndices(idxs, height, width);
    assert flat == Concat(Offsets(idxs, height, width, |idxs|));
    seq(|idxs|, b requires 0 <= b < |idxs| =>
      seq(height, i requires 0 <= i < height => MatVec(flat, Concat(valss), Concat(xs), b * height + i)))
  }

  /** The offsets make batchmm block-diagonal: batch element b's result is
      its own sparse matrix times its own dense column, untouched by the
      other elements. */
  lemma BatchMMBlocks(idxs: seq<seq<(nat, nat)>>, valss: seq<seq<int>>, xs: seq<seq<int>>, height: nat, width: nat,
                      b: nat, i: nat)
    requires BatchShape(idxs, valss, xs, height, width)
    requires b < |idxs| && i < height
    ensures BatchMM(idxs, valss, xs, height, width)[b][i] == MatVec(idxs[b], valss[b], xs[b], i)
  {
    var flat, vals, dense := BatchIndices(idxs, height, width), Concat(valss), Concat(xs);
    ConcatIndex(xs, width);
    BatchPrefix(idxs, valss, xs, height, width, dense, |idxs|, b, i);
    assert valss[..|idxs|] == valss;
    assert flat == Concat(Offsets(idxs, height, width, |idxs|));
    assert BatchMM(idxs, valss, xs, height, width)[b][i] == MatVec(flat, vals, dense, b * height + i);
  }

  /** Every offset coordinate lies in the b-th diagonal block and the
      remainders recover the original coordinate. */
  lemma OffsetInBlock(idx: seq<(nat, nat)>, b: nat, nb: nat, height: nat, width: nat, k: nat)
    requires b < nb && k < |idx| && idx[k].0 < height && idx[k].1 < width
    ensures var e := Offset(idx, b, height, width)[k];
      && e.0 < nb * height && e.1 < nb * width
      && e.0 / height == b && e.0 % height == idx[k].0
      && e.1 / width == b && e.1 % width == idx[k].1
  {
    BlockBelow(b, nb, height, idx[k].0);
    BlockBelow(b, nb, width, idx[k].1);
    PlaceRoundTrip(Triple(idx[k].0, b, 0), height, true);
    PlaceRoundTrip(Triple(0, b, idx[k].1), width, false);
  }

  // ---------------------------------------------------------------------
  // sum_sparse

  /** The coordinate that groups an entry: its row, or its column when
      summing columns. */
  function Key(e: (nat, nat), row: bool): nat {
    if row then e.0 else e.1
  }

  /** The index columns swapped when summing columns (`row=False`). */
  function Transposed(idx: seq<(nat, nat)>, row: bool): (r: seq<(nat, nat)>)
    ensures |r| == |idx| && forall k | 0 <= k < |idx| :: r[k].0 == Key(idx[k], row) && r[k].1 == Key(idx[k], !row)
  {
    if row then idx else seq(|idx|, k requires 0 <= k < |idx| => (idx[k].1, idx[k].0))
  }

  /** Reference sum: the values of all entries whose key is `key`. */
  function EntrySum(idx: seq<(nat, nat)>, vals: seq<int>, key: nat, row: bool): int
    requires |vals| == |idx|
  {
    if idx == [] then 0
    else
      var m := |idx| - 1;
      EntrySum(idx[..m], vals[..m], key, row) + (if Key(idx[m], row) == key then vals[m] else 0)
  }

  /** A column of ones. */
  function Ones(w: nat): (r: seq<int>)
    ensures |r| == w && forall j | 0 <= j < w :: r[j] == 1
  {
    seq(w, j => 1)
  }

  /** A sparse matrix times a column of ones sums each row's values. */
  lemma {:induction false} MatVecOnes(idx: seq<(nat, nat)>, vals: seq<int>, w: nat, key: nat, row: bool)
    requires |vals| == |idx|
    requires forall k | 0 <= k < |idx| :: Key(idx[k], !row) < w
    ensures ColsBelow(Transposed(idx, row), w)
    ensures MatVec(Transposed(idx, row), vals, Ones(w), key) == EntrySum(idx, vals, key, row)
  {
    var t := Transposed(idx, row);
    if idx != [] {
      var m := |idx| - 1;
      MatVecOnes(idx[..m], vals[..m], w, key, row);
      assert t[..m] == Transposed(idx[..m], row);
    }
  }

  /** All batch elements hold the same number of entries (a dense index
      tensor) and lie inside the size. */
  predicate IndexTensor(idxs: seq<seq<(nat, nat)>>, height: nat, width: nat) {
    && (forall b, c | 0 <= b < c < |idxs| :: |idxs[b]| == |idxs[c]|)
    && (forall b | 0 <= b < |idxs| :: InBounds(idxs[b], height, width))
  }

  /** Every index matrix of the batch with its columns swapped when summing
      columns. */
  function SwappedBatch(idxs: seq<seq<(nat, nat)>>, row: bool): (r: seq<seq<(nat, nat)>>)
    ensures |r| == |idxs| && forall b | 0 <= b < |idxs| :: r[b] == Transposed(idxs[b], row)
  {
    seq(|idxs|, b requires 0 <= b < |idxs| => Transposed(idxs[b], row))
  }

  /** n columns of w ones. */
  function OnesBatch(n: nat, w: nat): (r: seq<seq<int>>)
    ensures |r| == n && forall b | 0 <= b < n :: r[b] == Ones(w)
  {
    seq(n, b => Ones(w))
  }

  /** The swapped batch is a well-shaped batch for the product with ones. */
  lemma SwappedShape(idxs: seq<seq<(nat, nat)>>, valss: seq<seq<int>>, height: nat, width: nat, row: bool)
    requires IndexTensor(idxs, height, width)
    requires |valss| == |idxs| && forall b | 0 <= b < |idxs| :: |valss[b]| == |idxs[b]|
    ensures BatchShape(SwappedBatch(idxs, row), valss, OnesBatch(|idxs|, if row then width else height),
                       if row then height else width, if row then width else height)
  {
    var h, w := if row then height else width, if row then width else height;
    var sw := SwappedBatch(idxs, row);
    forall b | 0 <= b < |idxs| ensures InBounds(sw[b], h, w) {
      assert InBounds(idxs[b], height, width);
    }
  }

  /** sum_sparse on a batch: the values tensor must have the index tensor's
      batch dimension and entry count (asserted); then the rows (or, with
      `row=False`, the columns, by swapping the index columns and the size)
      are summed by one batched product with a column of ones, and each
      entry reads back the sum of its own row. */
  function SumSparseBatch(idxs: seq<seq<(nat, nat)>>, valss: seq<seq<int>>, height: nat, width: nat, row: bool)
    : (r: Result<seq<seq<int>>>)
    requires IndexTensor(idxs, height, width)
    ensures r.Ok? <==> |valss| == |idxs| && forall b | 0 <= b < |idxs| :: |valss[b]| == |idxs[b]|
    ensures r.Err? ==> r.error == AssertionError
    ensures r.Ok? ==> |r.value| == |idxs| && forall b | 0 <= b < |idxs| :: |r.value[b]| == |idxs[b]|
  {
    if |valss| != |idxs| || exists b | 0 <= b < |idxs| :: |valss[b]| != |idxs[b]| then Err(AssertionError)
    else
      var h, w := if row then height else width, if row then width else height;
      var sw: seq<seq<(nat, nat)>>, ones: seq<seq<int>> := SwappedBatch(idxs, row), OnesBatch(|idxs|, w);
      SwappedShape(idxs, valss, height, width, row);
      var sums := BatchMM(sw, valss, ones, h, w);
      Ok(seq(|idxs|, b requires 0 <= b < |idxs| =>
        seq(|idxs[b]|, k requires 0 <= k < |idxs[b]| => sums[b][sw[b][k].0])))
  }

  /** sum_sparse on a single matrix, given a batch dimension of one and
      viewed back to one value per entry. A values vector whose length is
      not the entry count cannot form a sparse tensor. */
  function SumSparse(idx: seq<(nat, nat)>, vals: seq<int>, height: nat, width: nat, row: bool): (r: Result<seq<int>>)
    requires InBounds(idx, height, width)
    ensures r.Ok? <==> |vals| == |idx|
    ensures r.Ok? ==> |r.value| == |idx|
  {
    if |vals| != |idx| then Err(RuntimeError)
    else Ok(SumSparseBatch([idx], [vals], height, width, row).value[0])
  }

  /** What sum_sparse computes: every stored entry receives the sum of the
      values sharing its row (its column when `row` is false). */
  lemma SumSparseBatchMeaning(idxs: seq<seq<(nat, nat)>>, valss: seq<seq<int>>, height: nat, width: nat, row: bool,
                              b: nat, k: nat)
    requires IndexTensor(idxs, height, width)
    requires SumSparseBatch(idxs, valss, height, width, row).Ok?
    requires b < |idxs| && k < |idxs[b]|
    ensures SumSparseBatch(idxs, valss, height, width, row).value[b][k]
      == EntrySum(idxs[b], valss[b], Key(idxs[b][k], row), row)
  {
    var h, w := if row then height else width, if row then width else height;
    var sw: seq<seq<(nat, nat)>>, ones: seq<seq<int>> := SwappedBatch(idxs, row), OnesBatch(|idxs|, w);
    SwappedShape(idxs, valss, height, width, row);
    var i := sw[b][k].0;
    assert i == Key(idxs[b][k], row) < h;
    assert SumSparseBatch(idxs, valss, height, width, row).value[b][k] == BatchMM(sw, valss, ones, h, w)[b][i];
    BatchMMBlocks(sw, valss, ones, h, w, b, i);
    SwappedOnes(idxs[b], valss[b], height, width, row, sw[b], ones[b], Key(idxs[b][k], row));
  }

  /** One swapped block against its column of ones sums the entries sharing
      a key. */
  lemma SwappedOnes(idx: seq<(nat, nat)>, vals: seq<int>, height: nat, width: nat, row: bool,
                    swapped: seq<(nat, nat)>, ones: seq<int>, key: nat)
    requires InBounds(idx, height, width) && |vals| == |idx|
    requires swapped == Transposed(idx, row) && ones == Ones(if row then width else height)
    ensures ColsBelow(swapped, |ones|)
    ensures MatVec(swapped, vals, ones, key) == EntrySum(idx, vals, key, row)
  {
    MatVecOnes(idx, vals, |ones|, key, row);
  }

  /** Batch dimensions are preserved: element b of the batched result is
      sum_sparse of batch element b on its own. */
  lemma SumSparseBatchwise(idxs: seq<seq<(nat, nat)>>, valss: seq<seq<int>>, height: nat, width: nat, row: bool, b: nat)
    requires IndexTensor(idxs, height, width)
    requires SumSparseBatch(idxs, valss, height, width, row).Ok?
    requires b < |idxs|
    ensures SumSparse(idxs[b], valss[b], height, width, row).Ok?
    ensures SumSparseBatch(idxs, valss, height, width, row).value[b] == SumSparse(idxs[b], valss[b], height, width, row).value
  {
    assert IndexTensor([idxs[b]], height, width);
    forall k | 0 <= k < |idxs[b]|
      ensures SumSparseBatch(idxs, valss, height, width, row).value[b][k]
        == SumSparse(idxs[b], valss[b], height, width, row).value[k]
    {
      SumSparseBatchMeaning(idxs, valss, height, width, row, b, k);
      SumSparseBatchMeaning([idxs[b]], [valss[b]], height, width, row, 0, k);
    }
  }

  /** Column sums are the row sums of the transposed matrix. */
  lemma ColumnSumsAreTransposedRowSums(idx: seq<(nat, nat)>, vals: seq<int>, height: nat, width: nat)
    requires InBounds(idx, height, width) && |vals| == |idx|
    ensures InBounds(Transposed(idx, false), width, height)
    ensures SumSparse(idx, vals, height, width, false) == SumSparse(Transposed(idx, false), vals, width, height, true)
  {
    var t := Transposed(idx, false);
    forall k | 0 <= k < |idx|
      ensures SumSparse(idx, vals, height, width, false).value[k] == SumSparse(t, vals, width, height, true).value[k]
    {
      SumSparseBatchMeaning([idx], [vals], height, width, false, 0, k);
      SumSparseBatchMeaning([t], [vals], width, height, true, 0, k);
      EntrySumTransposed(idx, vals, Key(idx[k], false));
    }
  }

  lemma {:induction false} EntrySumTransposed(idx: seq<(nat, nat)>, vals: seq<int>, key: nat)
    requires |vals| == |idx|
    ensures EntrySum(idx, vals, key, false) == EntrySum(Transposed(idx, false), vals, key, true)
  {
    if idx != [] {
      var m := |idx| - 1;
      EntrySumTransposed(idx[..m], vals[..m], key);
      assert Transposed(idx, false)[..m] == Transposed(idx[..m], false);
    }
  }

  // ---------------------------------------------------------------------
  // block_diag

  /** n blocks of p x q. */
  predicate Blocks(m: seq<seq<seq<int>>>, p: nat, q: nat) {
    forall a | 0 <= a < |m| :: |m[a]| == p && forall i | 0 <= i < p :: |m[a][i]| == q
  }

  /** The broadcast product m.unsqueeze(-2) * eye: entry [a][i][b][j] is
      m[a][i][j] times the identity's [a][b]. */
  function MaskedBlocks(m: seq<seq<seq<int>>>, p: nat, q: nat): (t: seq<seq<seq<seq<int>>>>)
    requires Blocks(m, p, q)
    ensures |t| == |m| && forall a | 0 <= a < |m| :: |t[a]| == p && forall i | 0 <= i < p ::
      |t[a][i]| == |m| && forall b | 0 <= b < |m| :: |t[a][i][b]| == q
  {
    var n := |m|;
    seq(n, a requires 0 <= a < n => seq(p, i requires 0 <= i < p => seq(n, b requires 0 <= b < n =>
      seq(q, j requires 0 <= j < q => m[a][i][j] * (if a == b then 1 else 0)))))
  }

  /** The rows of the reshaped product before flattening: row (a, i) is
      the concatenation of its n column blocks (dimensions 2 and 3 merged). */
  function BlockRows(m: seq<seq<seq<int>>>, p: nat, q: nat): (rows: seq<seq<seq<int>>>)
    requires Blocks(m, p, q)
    ensures |rows| == |m| && forall a | 0 <= a < |m| :: |rows[a]| == p
  {
    var t := MaskedBlocks(m, p, q);
    seq(|m|, a requires 0 <= a < |m| => seq(p, i requires 0 <= i < p => Concat(t[a][i])))
  }

  /** block_diag: the (n, p, n, q) product reshaped row-major to
      (n*p, n*q), i.e. dimensions 0,1 merged into rows and 2,3 into
      columns. */
  function BlockDiag(m: seq<seq<seq<int>>>, p: nat, q: nat): seq<seq<int>>
    requires Blocks(m, p, q)
  {
    Concat(BlockRows(m, p, q))
  }

  /** Entry (a*p + i, b*q + j) of the result is entry (i, j) of block a on
      the diagonal (a == b) and zero elsewhere; its rows have n*q entries. */
  lemma BlockDiagEntry(m: seq<seq<seq<int>>>, p: nat, q: nat, a: nat, i: nat, b: nat, j: nat)
    requires Blocks(m, p, q)
    requires a < |m| && i < p && b < |m| && j < q
    ensures |BlockDiag(m, p, q)| == |m| * p
    ensures a * p + i < |m| * p && b * q + j < |m| * q
    ensures |BlockDiag(m, p, q)[a * p + i]| == |m| * q
    ensures BlockDiag(m, p, q)[a * p + i][b * q + j] == if a == b then m[a][i][j] else 0
  {
    BlockDiagRow(m, p, q, a, i);
    var t := MaskedBlocks(m, p, q);
    ConcatAt(t[a][i], q, b, j);
  }

  /** Row a*p + i of the result is row i of block a's masked blocks laid
      side by side, n*q entries. */
  lemma BlockDiagRow(m: seq<seq<seq<int>>>, p: nat, q: nat, a: nat, i: nat)
    requires Blocks(m, p, q)
    requires a < |m| && i < p
    ensures |BlockDiag(m, p, q)| == |m| * p
    ensures a * p + i < |m| * p && |BlockDiag(m, p, q)[a * p + i]| == |m| * q
    ensures BlockDiag(m, p, q)[a * p + i] == Concat(MaskedBlocks(m, p, q)[a][i])
  {
    var t := MaskedBlocks(m, p, q);
    var rows := BlockRows(m, p, q);
    ConcatIndex(rows, p);
    assert rows[a][i] == Concat(t[a][i]);
    ConcatIndex(t[a][i], q);
  }

  /** The result has n*p rows of n*q entries. */
  lemma BlockDiagShape(m: seq<seq<seq<int>>>, p: nat, q: nat)
    requires Blocks(m, p, q)
    ensures |BlockDiag(m, p, q)| == |m| * p
    ensures forall r | 0 <= r < |BlockDiag(m, p, q)| :: |BlockDiag(m, p, q)[r]| == |m| * q
  {
    var rows := BlockRows(m, p, q);
    ConcatIndex(rows, p);
    forall r | 0 <= r < |BlockDiag(m, p, q)| ensures |BlockDiag(m, p, q)[r]| == |m| * q {
      var a, i := RowSplit(r, |m|, p);
      BlockDiagRow(m, p, q, a, i);
    }
  }

  /** A row index of the n*p rows names row i of block a. */
  lemma RowSplit(r: nat, n: nat, p: nat) returns (a: nat, i: nat)
    requires r < n * p
    ensures a < n && i < p && r == a * p + i
  {
    assert p != 0;
    a, i := r / p, r % p;
    if a >= n {
      MulMono(n, a, p);
    }
  }

  /** The documented example: four 3 x 2 blocks of ones give a 12 x 8
      matrix whose ones are exactly the diagonal 3 x 2 blocks. */
  lemma BlockDiagExample()
    ensures var m := seq(4, a => seq(3, i => seq(2, j => 1)));
      Blocks(m, 3, 2)
      && |BlockDiag(m, 3, 2)| == 12
      && (forall r | 0 <= r < 12 :: |BlockDiag(m, 3, 2)[r]| == 8)
      && forall r, c | 0 <= r < 12 && 0 <= c < 8 :: BlockDiag(m, 3, 2)[r][c] == if r / 3 == c / 2 then 1 else 0
  {
    var m := seq(4, a => seq(3, i => seq(2, j => 1)));
    BlockDiagShape(m, 3, 2);
    forall r, c | 0 <= r < 12 && 0 <= c < 8
      ensures BlockDiag(m, 3, 2)[r][c] == if r / 3 == c / 2 then 1 else 0
    {
      ExampleEntry(m, r, c);
    }
  }

  /** One entry of the documented example. */
  lemma ExampleEntry(m: seq<seq<seq<int>>>, r: nat, c: nat)
    requires m == seq(4, a => seq(3, i => seq(2, j => 1)))
    requires r < 12 && c < 8
    ensures Blocks(m, 3, 2) && |BlockDiag(m, 3, 2)| == 12 && |BlockDiag(m, 3, 2)[r]| == 8
    ensures BlockDiag(m, 3, 2)[r][c] == if r / 3 == c / 2 then 1 else 0
  {
    var a, i, b, j := r / 3, r % 3, c / 2, c % 2;
    assert a < 4 && b < 4 && r == a * 3 + i && c == b * 2 + j;
    BlockDiagEntry(m, 3, 2, a, i, b, j);
    assert m[a][i][j] == 1;
  }

  // ---------------------------------------------------------------------
  // mask_

  /** The diagonal offset of torch.triu_indices in mask_: 0 masks the
      diagonal too, 1 only the strict upper triangle. */
  function MaskOffset(maskDiagonal: bool): int {
    if maskDiagonal then 0 else 1
  }

  /** mask_: for every matrix of the batch, writes `maskval` at each (i, j)
      with j - i >= offset and leaves every other cell as it was. */
  method Mask(matrices: array3<real>, maskval: real, maskDiagonal: bool)
    modifies matrices
    ensures forall b, i, j | 0 <= b < matrices.Length0 && 0 <= i < matrices.Length1 && 0 <= j < matrices.Length2 ::
      matrices[b, i, j] == if j - i >= MaskOffset(maskDiagonal) then maskval else old(matrices[b, i, j])
  {
    var offset := MaskOffset(maskDiagonal);
    for i := 0 to matrices.Length1
      invariant forall b, i', j | 0 <= b < matrices.Length0 && 0 <= i' < matrices.Length1 && 0 <= j < matrices.Length2 ::
        matrices[b, i', j] == if i' < i && j - i' >= offset then maskval else old(matrices[b, i', j])
    {
      for j := 0 to matrices.Length2
        invariant forall b, i', j' | 0 <= b < matrices.Length0 && 0 <= i' < matrices.Length1 && 0 <= j' < matrices.Length2 ::
          matrices[b, i', j'] ==
            if (i' < i || (i' == i && j' < j)) && j' - i' >= offset then maskval else old(matrices[b, i', j'])
      {
        if j - i >= offset {
          for b := 0 to matrices.Length0
            invariant forall b', i', j' | 0 <= b' < matrices.Length0 && 0 <= i' < matrices.Length1 && 0 <= j' < matrices.Length2 ::
              matrices[b', i', j'] ==
                if (i' < i || (i' == i && (j' < j || (j' == j && b' < b)))) && j' - i' >= offset then maskval
                else old(matrices[b', i', j'])
          {
            matrices[b, i, j] := maskval;
          }
        }
      }
    }
  }
}
