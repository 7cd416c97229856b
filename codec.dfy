/** The graph-to-matrix codec of lp_utils.py: a sample of triples becomes an
    adjacency matrix A (n x n), an edge-relation tensor E (n x n x maxR) and a
    node-identity matrix F (n x maxN), with n = 2 * (number of triples). */
module Codec {
  import opened Common

  function Ind(b: bool): int { if b then 1 else 0 }

  ghost predicate Distinct(xs: seq<nat>) {
    forall i, j | 0 <= i < j < |xs| :: xs[i] != xs[j]
  }

  /** The distinct elements of `xs` in order of first appearance
      (what `list(dict.fromkeys(xs))` gives). */
  function Unique(xs: seq<nat>): seq<nat> {
    if xs == [] then []
    else
      var u := Unique(xs[..|xs| - 1]);
      if xs[|xs| - 1] in u then u else u + [xs[|xs| - 1]]
  }

  /** `Unique` keeps every element once and adds nothing. */
  lemma {:induction false} UniqueSpec(xs: seq<nat>)
    ensures forall x :: x in Unique(xs) <==> x in xs
    ensures Distinct(Unique(xs))
    ensures |Unique(xs)| <= |xs|
  {
    if xs != [] {
      UniqueSpec(xs[..|xs| - 1]);
      assert xs == xs[..|xs| - 1] + [xs[|xs| - 1]];
    }
  }

  function Subjects(ts: seq<Triple>): (r: seq<nat>)
    ensures |r| == |ts| && forall k | 0 <= k < |ts| :: r[k] == ts[k].s
  {
    seq(|ts|, k requires 0 <= k < |ts| => ts[k].s)
  }

  function Objects(ts: seq<Triple>): (r: seq<nat>)
    ensures |r| == |ts| && forall k | 0 <= k < |ts| :: r[k] == ts[k].o
  {
    seq(|ts|, k requires 0 <= k < |ts| => ts[k].o)
  }

  /** Unique subjects followed by unique objects. */
  function NodeList(ts: seq<Triple>): seq<nat> {
    Unique(Subjects(ts)) + Unique(Objects(ts))
  }

  /** `dict(zip(xs, arange(len(xs))))`: every element maps to the index of
      its LAST occurrence, since a later key overwrites an earlier one. */
  function ZipIndex(xs: seq<nat>): map<nat, nat> {
    if xs == [] then map[]
    else ZipIndex(xs[..|xs| - 1])[xs[|xs| - 1] := |xs| - 1]
  }

  /** Every element of `xs` is a key, mapped to the position of its last
      occurrence. */
  lemma {:induction false} ZipIndexSpec(xs: seq<nat>)
    ensures forall x :: x in ZipIndex(xs) <==> x in xs
    ensures forall x | x in ZipIndex(xs) :: ZipIndex(xs)[x] < |xs| && xs[ZipIndex(xs)[x]] == x
    ensures forall x, k | x in ZipIndex(xs) && ZipIndex(xs)[x] < k < |xs| :: xs[k] != x
  {
    if xs != [] {
      var init := xs[..|xs| - 1];
      ZipIndexSpec(init);
      assert xs == init + [xs[|xs| - 1]];
    }
  }

  /** The slot of every node id of the sample. */
  function NodeSlots(ts: seq<Triple>): map<nat, nat> {
    ZipIndex(NodeList(ts))
  }

  /** Slots are below n = 2 * |ts|, distinct node ids get distinct slots and
      every subject and object of the sample has a slot. */
  lemma SlotsBounded(ts: seq<Triple>)
    ensures forall t | t in ts :: t.s in NodeSlots(ts) && t.o in NodeSlots(ts)
    ensures forall x | x in NodeSlots(ts) :: NodeSlots(ts)[x] < 2 * |ts|
    ensures forall x, y | x in NodeSlots(ts) && y in NodeSlots(ts) && x != y ::
      NodeSlots(ts)[x] != NodeSlots(ts)[y]
  {
    var us, uo := Unique(Subjects(ts)), Unique(Objects(ts));
    var m := NodeSlots(ts);
    UniqueSpec(Subjects(ts));
    UniqueSpec(Objects(ts));
    ZipIndexSpec(us + uo);
    forall t | t in ts ensures t.s in m && t.o in m {
      var k :| 0 <= k < |ts| && ts[k] == t;
      assert Subjects(ts)[k] == t.s && Objects(ts)[k] == t.o;
    }
  }

  /** A node that occurs as an object takes its slot in the object part of
      the node list; a node that only occurs as a subject keeps its slot
      in the subject part. */
  lemma ObjectSlotWins(ts: seq<Triple>, x: nat)
    requires x in Objects(ts) || x in Subjects(ts)
    ensures x in NodeSlots(ts)
    ensures x in Objects(ts) ==>
      var uo := Unique(Objects(ts));
      |Unique(Subjects(ts))| <= NodeSlots(ts)[x] < |Unique(Subjects(ts))| + |uo|
      && uo[NodeSlots(ts)[x] - |Unique(Subjects(ts))|] == x
    ensures x !in Objects(ts) ==>
      NodeSlots(ts)[x] < |Unique(Subjects(ts))| && Unique(Subjects(ts))[NodeSlots(ts)[x]] == x
  {
    var us, uo := Unique(Subjects(ts)), Unique(Objects(ts));
    var xs := us + uo;
    var m := ZipIndex(xs);
    UniqueSpec(Subjects(ts));
    UniqueSpec(Objects(ts));
    ZipIndexSpec(xs);
    assert x in xs;
    if x in Objects(ts) {
      var j :| 0 <= j < |uo| && uo[j] == x;
      assert xs[|us| + j] == x;
      if m[x] < |us| + j {
        assert false;
      }
      if m[x] > |us| + j {
        assert false;
      }
    } else {
      if m[x] >= |us| {
        assert false;
      }
    }
  }

  /** Some triple among the first k of `ts` puts an edge at slots (i, j). */
  predicate EdgeAt(ts: seq<Triple>, k: nat, slots: map<nat, nat>, i: int, j: int)
    requires k <= |ts|
  {
    k > 0 &&
    (EdgeAt(ts, k - 1, slots, i, j) ||
     var t := ts[k - 1];
     t.s in slots && t.o in slots && slots[t.s] == i && slots[t.o] == j)
  }

  /** Some triple among the first k of `ts` puts an edge of relation c at
      slots (i, j). */
  predicate RelationAt(ts: seq<Triple>, k: nat, slots: map<nat, nat>, i: int, j: int, c: int)
    requires k <= |ts|
  {
    k > 0 &&
    (RelationAt(ts, k - 1, slots, i, j, c) ||
     var t := ts[k - 1];
     t.s in slots && t.o in slots && slots[t.s] == i && slots[t.o] == j && t.p == c)
  }

  /** Some triple among the first k of `ts` binds slot i to node id c. */
  predicate NodeAt(ts: seq<Triple>, k: nat, slots: map<nat, nat>, i: int, c: int)
    requires k <= |ts|
  {
    k > 0 &&
    (NodeAt(ts, k - 1, slots, i, c) ||
     var t := ts[k - 1];
     (t.s in slots && slots[t.s] == i && t.s == c) || (t.o in slots && slots[t.o] == i && t.o == c))
  }

  /** The recursive description of an edge cell agrees with "one of the
      first k triples has these slots". */
  lemma {:induction false} EdgeAtMeans(ts: seq<Triple>, k: nat, slots: map<nat, nat>, i: int, j: int)
    requires k <= |ts|
    ensures EdgeAt(ts, k, slots, i, j) <==>
      exists m | 0 <= m < k :: ts[m].s in slots && ts[m].o in slots && slots[ts[m].s] == i && slots[ts[m].o] == j
  {
    if k > 0 {
      EdgeAtMeans(ts, k - 1, slots, i, j);
    }
  }

  /** Every edge cell carries at least one relation channel below maxR. */
  lemma {:induction false} EdgeHasRelation(ts: seq<Triple>, k: nat, slots: map<nat, nat>, i: int, j: int, maxR: nat)
    requires k <= |ts|
    requires forall t | t in ts :: t.p < maxR
    requires EdgeAt(ts, k, slots, i, j)
    ensures exists c | 0 <= c < maxR :: RelationAt(ts, k, slots, i, j, c)
  {
    var t := ts[k - 1];
    if EdgeAt(ts, k - 1, slots, i, j) {
      EdgeHasRelation(ts, k - 1, slots, i, j, maxR);
      var c :| 0 <= c < maxR && RelationAt(ts, k - 1, slots, i, j, c);
      assert RelationAt(ts, k, slots, i, j, c);
    } else {
      assert t in ts;
      assert RelationAt(ts, k, slots, i, j, t.p);
    }
  }

  /** The (A, E, F) arrays hold the encoding of the sample `ts`: exactly the
      cells written for some triple are 1 and every other cell is 0. */
  ghost predicate Encodes(A: array2<int>, E: array3<int>, F: array2<int>, ts: seq<Triple>, maxN: nat, maxR: nat)
    reads A, E, F
  {
    var n, slots := 2 * |ts|, NodeSlots(ts);
    && A.Length0 == n && A.Length1 == n
    && E.Length0 == n && E.Length1 == n && E.Length2 == maxR
    && F.Length0 == n && F.Length1 == maxN
    && (forall i, j | 0 <= i < n && 0 <= j < n :: A[i, j] == Ind(EdgeAt(ts, |ts|, slots, i, j)))
    && (forall i, j, c | 0 <= i < n && 0 <= j < n && 0 <= c < maxR ::
          E[i, j, c] == Ind(RelationAt(ts, |ts|, slots, i, j, c)))
    && (forall i, c | 0 <= i < n && 0 <= c < maxN :: F[i, c] == Ind(NodeAt(ts, |ts|, slots, i, c)))
  }

  /** A triple's ids index the node dimension (max_n) and the relation
      dimension (max_r) of the arrays. */
  predicate TripleInRange(t: Triple, maxN: nat, maxR: nat) {
    t.s < maxN && t.o < maxN && t.p < maxR
  }

  predicate IdsInRange(ts: seq<Triple>, maxN: nat, maxR: nat) {
    forall m | 0 <= m < |ts| :: TripleInRange(ts[m], maxN, maxR)
  }

  /** triple2matrix: one sample of triples to fresh (A, E, F) arrays. The
      tensor writes raise IndexError at the first triple whose relation or
      node id lies outside the arrays. */
  method Triple2Matrix(ts: seq<Triple>, maxN: nat, maxR: nat) returns (r: Result<Sample>)
    ensures r.Err? <==> !IdsInRange(ts, maxN, maxR)
    ensures r.Err? ==> r.error == IndexError
    ensures r.Ok? ==> Encodes(r.value.A, r.value.E, r.value.F, ts, maxN, maxR)
  {
    var slots := NodeSlots(ts);
    SlotsBounded(ts);
    var n := 2 * |ts|;
    var A := new int[n, n]((i, j) => 0);
    var E := new int[n, n, maxR]((i, j, c) => 0);
    var F := new int[n, maxN]((i, c) => 0);
    var ok := WriteCells(ts, slots, A, E, F);
    if !ok {
      return Err(IndexError);
    }
    r := Ok(Sample(A, E, F));
  }

  /** The loop of triple2matrix: for each triple (s, r, o) it sets
      A[slot s, slot o], E[slot s, slot o, r], F[slot s, s] and F[slot o, o]
      to 1, stopping (IndexError) at the first write outside the arrays.
      Starting from zero arrays, when no write fails a cell ends at 1
      exactly when some triple writes it. */
  method WriteCells(ts: seq<Triple>, slots: map<nat, nat>, A: array2<int>, E: array3<int>, F: array2<int>)
    returns (ok: bool)
    requires forall t | t in ts :: t.s in slots && t.o in slots && slots[t.s] < A.Length0 && slots[t.o] < A.Length0
    requires A.Length0 == A.Length1 == E.Length0 == E.Length1 == F.Length0
    requires forall i, j | 0 <= i < A.Length0 && 0 <= j < A.Length1 :: A[i, j] == 0
    requires forall i, j, c | 0 <= i < E.Length0 && 0 <= j < E.Length1 && 0 <= c < E.Length2 :: E[i, j, c] == 0
    requires forall i, c | 0 <= i < F.Length0 && 0 <= c < F.Length1 :: F[i, c] == 0
    requires A != F
    modifies A, E, F
    ensures ok <==> IdsInRange(ts, F.Length1, E.Length2)
    ensures ok ==> forall i, j | 0 <= i < A.Length0 && 0 <= j < A.Length1 :: A[i, j] == Ind(EdgeAt(ts, |ts|, slots, i, j))
    ensures ok ==> forall i, j, c | 0 <= i < E.Length0 && 0 <= j < E.Length1 && 0 <= c < E.Length2 ::
      E[i, j, c] == Ind(RelationAt(ts, |ts|, slots, i, j, c))
    ensures ok ==> forall i, c | 0 <= i < F.Length0 && 0 <= c < F.Length1 :: F[i, c] == Ind(NodeAt(ts, |ts|, slots, i, c))
  {
    var n := A.Length0;
    for k := 0 to |ts|
      invariant forall m | 0 <= m < k :: TripleInRange(ts[m], F.Length1, E.Length2)
      invariant forall i, j | 0 <= i < n && 0 <= j < n :: A[i, j] == Ind(EdgeAt(ts, k, slots, i, j))
      invariant forall i, j, c | 0 <= i < n && 0 <= j < n && 0 <= c < E.Length2 ::
        E[i, j, c] == Ind(RelationAt(ts, k, slots, i, j, c))
      invariant forall i, c | 0 <= i < n && 0 <= c < F.Length1 :: F[i, c] == Ind(NodeAt(ts, k, slots, i, c))
    {
      var t := ts[k];
      assert t in ts;
      var si, oi := slots[t.s], slots[t.o];
      A[si, oi] := 1;
      if t.p >= E.Length2 {
        return false;
      }
      E[si, oi, t.p] := 1;
      if t.s >= F.Length1 {
        return false;
      }
      F[si, t.s] := 1;
      if t.o >= F.Length1 {
        return false;
      }
      F[oi, t.o] := 1;
    }
    ok := true;
  }

  /** The rows batch[ii .. min(ii + n, bs)) that sample ii is built from. */
  function Window(rows: seq<Triple>, n: nat, ii: nat): (w: seq<Triple>)
    requires ii < |rows|
    ensures |w| == Min(n, |rows| - ii) && forall k | 0 <= k < |w| :: w[k] == rows[ii + k]
  {
    rows[ii..Min(ii + n, |rows|)]
  }

  /** The input of batch_t2m: a single triple (a 1-D tensor) or a 2-D batch. */
  datatype TripleBatch = Single(t: Triple) | Rows(rows: seq<Triple>)

  function RowsOf(b: TripleBatch): (rows: seq<Triple>)
    ensures b.Single? ==> rows == [b.t]
  {
    match b
    case Single(t) => [t]
    case Rows(rows) => rows
  }

  datatype Sample = Sample(A: array2<int>, E: array3<int>, F: array2<int>)

  /** torch.cat of the per-window matrices succeeds only when every window
      has the same number of triples (and there is at least one window). */
  predicate CatSucceeds(bs: nat, n: nat) {
    bs > 0 && forall ii | 0 <= ii < bs :: WindowLen(bs, n, ii) == WindowLen(bs, n, 0)
  }

  /** The number of rows in window ii of a batch of bs rows. */
  function WindowLen(bs: nat, n: nat, ii: nat): int {
    Min(n, bs - ii)
  }

  /** Because windows advance by one row, concatenation succeeds on a batch
      of two or more rows exactly when each sample holds at most one triple. */
  lemma CatSucceedsIff(bs: nat, n: nat)
    requires bs >= 2
    ensures CatSucceeds(bs, n) <==> n <= 1
  {
    if n >= 2 {
      assert WindowLen(bs, n, bs - 1) == 1;
    }
  }

  /** Every row lies in its own window, so some window holds a row with an
      id out of range exactly when windows are non-empty and some row does. */
  lemma WindowsInRange(rows: seq<Triple>, n: nat, maxN: nat, maxR: nat)
    ensures (forall ii | 0 <= ii < |rows| :: IdsInRange(Window(rows, n, ii), maxN, maxR))
      <==> n == 0 || IdsInRange(rows, maxN, maxR)
  {
    if n > 0 && forall ii | 0 <= ii < |rows| :: IdsInRange(Window(rows, n, ii), maxN, maxR) {
      forall m | 0 <= m < |rows| ensures TripleInRange(rows[m], maxN, maxR) {
        assert Window(rows, n, m)[0] == rows[m];
      }
    }
    if IdsInRange(rows, maxN, maxR) {
      forall ii | 0 <= ii < |rows| ensures IdsInRange(Window(rows, n, ii), maxN, maxR) {
        var w := Window(rows, n, ii);
        forall k | 0 <= k < |w| ensures TripleInRange(w[k], maxN, maxR) {
          assert w[k] == rows[ii + k];
        }
      }
    }
  }

  /** batch_t2m: one sample per input row, sample ii encoding the window of
      rows ii .. min(ii + n, bs) - 1. A window with an id out of range makes
      triple2matrix raise IndexError; otherwise concatenating unequal
      windows raises RuntimeError. */
  method BatchT2M(batch: TripleBatch, n: nat, maxN: nat, maxR: nat) returns (r: Result<seq<Sample>>)
    ensures r == Err(IndexError) <==> n > 0 && !IdsInRange(RowsOf(batch), maxN, maxR)
    ensures r == Err(RuntimeError) <==>
      (n == 0 || IdsInRange(RowsOf(batch), maxN, maxR)) && !CatSucceeds(|RowsOf(batch)|, n)
    ensures r.Ok? <==> (n == 0 || IdsInRange(RowsOf(batch), maxN, maxR)) && CatSucceeds(|RowsOf(batch)|, n)
    ensures r.Ok? ==> |r.value| == |RowsOf(batch)|
    ensures r.Ok? ==> forall ii | 0 <= ii < |r.value| ::
      Encodes(r.value[ii].A, r.value[ii].E, r.value[ii].F, Window(RowsOf(batch), n, ii), maxN, maxR)
  {
    var rows := RowsOf(batch);
    var ok, samples := EncodeWindows(rows, n, maxN, maxR);
    WindowsInRange(rows, n, maxN, maxR);
    if !ok {
      return Err(IndexError);
    }
    if !CatSucceeds(|rows|, n) {
      return Err(RuntimeError);
    }
    r := Ok(samples);
  }

  /** The loop of `batch_t2m`: one `triple2matrix` per window, stopping at
      the first window with an id out of range. */
  method EncodeWindows(rows: seq<Triple>, n: nat, maxN: nat, maxR: nat) returns (ok: bool, samples: seq<Sample>)
    ensures ok <==> forall ii | 0 <= ii < |rows| :: IdsInRange(Window(rows, n, ii), maxN, maxR)
    ensures ok ==> |samples| == |rows|
    ensures ok ==> forall ii | 0 <= ii < |rows| ::
      Encodes(samples[ii].A, samples[ii].E, samples[ii].F, Window(rows, n, ii), maxN, maxR)
  {
    samples := [];
    for ii := 0 to |rows|
      invariant |samples| == ii
      invariant forall k | 0 <= k < ii :: IdsInRange(Window(rows, n, k), maxN, maxR)
      invariant SamplesEncode(samples, rows, n, maxN, maxR)
    {
      var w := Window(rows, n, ii);
      var res := Triple2Matrix(w, maxN, maxR);
      if res.Err? {
        return false, samples;
      }
      SamplesEncodeSnoc(samples, res.value, rows, n, maxN, maxR);
      samples := samples + [res.value];
    }
    ok := true;
  }

  /** Sample k of xs encodes window k of the rows. */
  ghost predicate SamplesEncode(xs: seq<Sample>, rows: seq<Triple>, n: nat, maxN: nat, maxR: nat)
    reads set k | 0 <= k < |xs| :: xs[k].A
    reads set k | 0 <= k < |xs| :: xs[k].E
    reads set k | 0 <= k < |xs| :: xs[k].F
  {
    |xs| <= |rows| && forall k | 0 <= k < |xs| :: Encodes(xs[k].A, xs[k].E, xs[k].F, Window(rows, n, k), maxN, maxR)
  }

  lemma SamplesEncodeSnoc(xs: seq<Sample>, x: Sample, rows: seq<Triple>, n: nat, maxN: nat, maxR: nat)
    requires SamplesEncode(xs, rows, n, maxN, maxR) && |xs| < |rows|
    requires Encodes(x.A, x.E, x.F, Window(rows, n, |xs|), maxN, maxR)
    ensures SamplesEncode(xs + [x], rows, n, maxN, maxR)
  {
    var ys := xs + [x];
    forall k | 0 <= k < |ys|
      ensures Encodes(ys[k].A, ys[k].E, ys[k].F, Window(rows, n, k), maxN, maxR)
    {
      if k < |xs| {
        assert ys[k] == xs[k];
      }
    }
  }

  // ---------------------------------------------------------------------
  // matrix2triple (deterministic skeleton)

  /** Cells (r, c) with r < i, or r == i and c < j, where A is 1, in
      row-major order (what `np.where(a == 1)` enumerates). */
  function OnesBefore(A: array2<int>, i: nat, j: nat): (cells: seq<(nat, nat)>)
    reads A
    requires i < A.Length0 || (i == A.Length0 && j == 0)
    requires j <= A.Length1
    ensures forall k | 0 <= k < |cells| ::
      cells[k].0 < A.Length0 && cells[k].1 < A.Length1 && A[cells[k].0, cells[k].1] == 1
    decreases i, j
  {
    if j == 0 then
      if i == 0 then [] else OnesBefore(A, i - 1, A.Length1)
    else
      OnesBefore(A, i, j - 1) + (if A[i, j - 1] == 1 then [(i, j - 1)] else [])
  }

  /** Row-major order on cells. */
  predicate Before(a: (nat, nat), b: (nat, nat)) {
    a.0 < b.0 || (a.0 == b.0 && a.1 < b.1)
  }

  /** OnesBefore lists every 1-cell before (i, j), in strictly increasing
      row-major order, and nothing at or after (i, j). */
  lemma {:induction false} OnesBeforeSpec(A: array2<int>, i: nat, j: nat)
    requires i < A.Length0 || (i == A.Length0 && j == 0)
    requires j <= A.Length1
    ensures forall r, c | 0 <= r < A.Length0 && 0 <= c < A.Length1 && Before((r, c), (i, j)) ::
      A[r, c] == 1 ==> (r, c) in OnesBefore(A, i, j)
    ensures forall k | 0 <= k < |OnesBefore(A, i, j)| :: Before(OnesBefore(A, i, j)[k], (i, j))
    ensures forall k, l | 0 <= k < l < |OnesBefore(A, i, j)| ::
      Before(OnesBefore(A, i, j)[k], OnesBefore(A, i, j)[l])
    decreases i, j
  {
    if j == 0 {
      if i > 0 {
        OnesBeforeSpec(A, i - 1, A.Length1);
      }
    } else {
      OnesBeforeSpec(A, i, j - 1);
    }
  }

  /** Every cell of A equal to 1, in row-major order. */
  function Ones(A: array2<int>): (cells: seq<(nat, nat)>)
    reads A
    ensures forall k | 0 <= k < |cells| ::
      cells[k].0 < A.Length0 && cells[k].1 < A.Length1 && A[cells[k].0, cells[k].1] == 1
  {
    if A.Length0 == 0 then [] else OnesBefore(A, A.Length0 - 1, A.Length1)
  }

  /** `Ones` is exactly `np.where(A == 1)`: the 1-cells, each once, in
      row-major order. */
  lemma OnesExact(A: array2<int>)
    ensures forall r, c | 0 <= r < A.Length0 && 0 <= c < A.Length1 :: A[r, c] == 1 <==> (r, c) in Ones(A)
    ensures forall k, l | 0 <= k < l < |Ones(A)| :: Before(Ones(A)[k], Ones(A)[l])
  {
    if A.Length0 > 0 {
      OnesBeforeSpec(A, A.Length0 - 1, A.Length1);
    }
  }

  /** The first relation channel c >= from with E[i, j, c] == 1. */
  function FirstActive(E: array3<int>, i: nat, j: nat, from: nat): (r: Option<nat>)
    reads E
    requires i < E.Length0 && j < E.Length1
    ensures r.None? ==> forall c | from <= c < E.Length2 :: E[i, j, c] != 1
    ensures r.Some? ==>
      && from <= r.value < E.Length2 && E[i, j, r.value] == 1
      && forall c | from <= c < r.value :: E[i, j, c] != 1
    decreases E.Length2 - from
  {
    if from >= E.Length2 then None
    else if E[i, j, from] == 1 then Some(from)
    else FirstActive(E, i, j, from + 1)
  }

  /** A decoded edge: the slots of its endpoints and its relation, which is
      the first active channel of its E fibre, or, when E has a single
      channel (squeezed away to a 2-D `e`), the entry of that channel. */
  datatype Edge = Edge(s: nat, o: nat, rel: int)

  /** The edges read before the loop ended, and whether it ran to the end
      (false: it stopped at an edge without relation channel). */
  datatype Decoded = Decoded(edges: seq<Edge>, consistent: bool)

  function Prepend(es: seq<Edge>, r: Result<Decoded>): Result<Decoded> {
    match r
    case Ok(d) => Ok(Decoded(es + d.edges, d.consistent))
    case Err(e) => Err(e)
  }

  lemma PrependAssoc(es: seq<Edge>, e: Edge, r: Result<Decoded>)
    ensures Prepend(es, Prepend([e], r)) == Prepend(es + [e], r)
  {
    if r.Ok? {
      assert es + ([e] + r.value.edges) == (es + [e]) + r.value.edges;
    }
  }

  /** Walks the cells in order. With a single channel every cell becomes an
      edge carrying its E entry. Otherwise it stops at the first cell without
      an active channel, and a first channel of 0 makes
      `np.random.choice(0)` raise. */
  function DecodeCells(E: array3<int>, cells: seq<(nat, nat)>): (r: Result<Decoded>)
    reads E
    requires forall k | 0 <= k < |cells| :: cells[k].0 < E.Length0 && cells[k].1 < E.Length1
  {
    if cells == [] then Ok(Decoded([], true))
    else if E.Length2 == 1 then
      Prepend([Edge(cells[0].0, cells[0].1, E[cells[0].0, cells[0].1, 0])], DecodeCells(E, cells[1..]))
    else
      match FirstActive(E, cells[0].0, cells[0].1, 0)
      case None => Ok(Decoded([], false))
      case Some(c) =>
        if c == 0 then Err(ValueError)
        else Prepend([Edge(cells[0].0, cells[0].1, c)], DecodeCells(E, cells[1..]))
  }

  /** What decoding promises. With a single channel it never stops and never
      raises: every cell becomes an edge, in order, carrying its E entry.
      Otherwise the edges are the first cells in order, each with its first
      active channel; stopping happens exactly at a cell with no active
      channel; without a stop every cell was decoded; and it raises only
      when some first channel is 0. */
  lemma {:induction false} DecodeCellsSound(E: array3<int>, cells: seq<(nat, nat)>)
    requires forall k | 0 <= k < |cells| :: cells[k].0 < E.Length0 && cells[k].1 < E.Length1
    ensures E.Length2 == 1 ==>
      && DecodeCells(E, cells).Ok?
      && DecodeCells(E, cells).value.consistent
      && |DecodeCells(E, cells).value.edges| == |cells|
      && forall k | 0 <= k < |cells| ::
           DecodeCells(E, cells).value.edges[k] == Edge(cells[k].0, cells[k].1, E[cells[k].0, cells[k].1, 0])
    ensures E.Length2 != 1 && DecodeCells(E, cells).Ok? ==>
      var d := DecodeCells(E, cells).value;
      && |d.edges| <= |cells|
      && (forall k | 0 <= k < |d.edges| ::
            d.edges[k].s == cells[k].0 && d.edges[k].o == cells[k].1 && 0 < d.edges[k].rel
            && FirstActive(E, cells[k].0, cells[k].1, 0) == Some(d.edges[k].rel))
      && (d.consistent <==> |d.edges| == |cells|)
      && (!d.consistent ==> FirstActive(E, cells[|d.edges|].0, cells[|d.edges|].1, 0).None?)
    ensures DecodeCells(E, cells).Err? ==>
      E.Length2 != 1 && exists k | 0 <= k < |cells| :: FirstActive(E, cells[k].0, cells[k].1, 0) == Some(0)
  {
    if cells != [] {
      DecodeCellsSound(E, cells[1..]);
      if E.Length2 == 1 {
        forall k | 0 <= k < |cells|
          ensures DecodeCells(E, cells).value.edges[k] == Edge(cells[k].0, cells[k].1, E[cells[k].0, cells[k].1, 0])
        {
          if k > 0 {
            assert cells[1..][k - 1] == cells[k];
          }
        }
      }
      var fa := FirstActive(E, cells[0].0, cells[0].1, 0);
      if fa.Some? && fa.value != 0 {
        var rest := DecodeCells(E, cells[1..]);
        if rest.Err? {
          var k :| 0 <= k < |cells[1..]| && FirstActive(E, cells[1..][k].0, cells[1..][k].1, 0) == Some(0);
          assert cells[1..][k] == cells[k + 1];
        }
      }
    }
  }

  /** matrix2triple: reads the edges of A in row-major order and decodes
      each, taking E's entry when E has a single channel and otherwise its
      first active channel, until an edge has none. */
  method Matrix2Triple(A: array2<int>, E: array3<int>) returns (r: Result<Decoded>)
    requires E.Length0 == A.Length0 && E.Length1 == A.Length1
    ensures r == DecodeCells(E, Ones(A))
  {
    var cells := Ones(A);
    var edges: seq<Edge> := [];
    var k := 0;
    assert cells[k..] == cells;
    match DecodeCells(E, cells) {
      case Ok(d) => assert [] + d.edges == d.edges;
      case Err(_) =>
    }
    while k < |cells|
      invariant 0 <= k <= |cells|
      invariant Prepend(edges, DecodeCells(E, cells[k..])) == DecodeCells(E, cells)
    {
      var (i, j) := cells[k];
      assert cells[k..][0] == cells[k] && cells[k..][1..] == cells[k + 1..];
      if E.Length2 == 1 {
        PrependAssoc(edges, Edge(i, j, E[i, j, 0]), DecodeCells(E, cells[k + 1..]));
        edges := edges + [Edge(i, j, E[i, j, 0])];
        k := k + 1;
        continue;
      }
      var cho := FirstActive(E, i, j, 0);
      if cho.None? {
        assert DecodeCells(E, cells[k..]) == Ok(Decoded([], false));
        assert edges + [] == edges;
        return Ok(Decoded(edges, false));
      }
      if cho.value == 0 {
        return Err(ValueError);
      }
      PrependAssoc(edges, Edge(i, j, cho.value), DecodeCells(E, cells[k + 1..]));
      edges := edges + [Edge(i, j, cho.value)];
      k := k + 1;
    }
    assert cells[k..] == [];
    assert edges + [] == edges;
    return Ok(Decoded(edges, true));
  }

  /** The decoder never reports an inconsistent graph for the encoder's own
      output: every edge of an encoded sample has an active channel. */
  lemma EncodedEdgesHaveChannel(A: array2<int>, E: array3<int>, F: array2<int>, ts: seq<Triple>, maxN: nat, maxR: nat)
    requires Encodes(A, E, F, ts, maxN, maxR)
    requires forall t | t in ts :: t.p < maxR
    ensures forall k | 0 <= k < |Ones(A)| :: FirstActive(E, Ones(A)[k].0, Ones(A)[k].1, 0).Some?
  {
    OnesExact(A);
    forall k | 0 <= k < |Ones(A)| ensures FirstActive(E, Ones(A)[k].0, Ones(A)[k].1, 0).Some? {
      var (i, j) := Ones(A)[k];
      assert A[i, j] == 1;
      EdgeHasRelation(ts, |ts|, NodeSlots(ts), i, j, maxR);
      var c :| 0 <= c < maxR && RelationAt(ts, |ts|, NodeSlots(ts), i, j, c);
      assert E[i, j, c] == 1;
    }
  }
}
