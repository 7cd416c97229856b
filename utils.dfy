/** Small utilities of lp_utils.py: the piecewise-linear parameter
    schedule, products, tensor-to-int-list conversion, the NaN / infinity
    search over nested iterables, batched application of a model and the
    filename slug. */
module Utils {
  import opened Common

  // ---------------------------------------------------------------------
  // schedule

  /** The dictionary's keys are distinct. */
  predicate DistinctKeys(items: seq<(int, real)>) {
    forall i, j | 0 <= i < j < |items| :: items[i].0 != items[j].0
  }

  predicate SortedByKey(s: seq<(int, real)>) {
    forall i, j | 0 <= i < j < |s| :: s[i].0 <= s[j].0
  }

  /** Inserts x after every element whose key is not above its own, as a
      stable sort does. */
  function InsertByKey(s: seq<(int, real)>, x: (int, real)): seq<(int, real)> {
    if s == [] then [x]
    else if x.0 < s[0].0 then [x] + s
    else [s[0]] + InsertByKey(s[1..], x)
  }

  /** `sorted(items, key=lambda x: x[0])`. */
  function SortByKey(items: seq<(int, real)>): seq<(int, real)> {
    if items == [] then [] else InsertByKey(SortByKey(items[..|items| - 1]), items[|items| - 1])
  }

  lemma InsertByKeySpec(s: seq<(int, real)>, x: (int, real))
    requires SortedByKey(s)
    ensures SortedByKey(InsertByKey(s, x))
    ensures multiset(InsertByKey(s, x)) == multiset(s) + multiset{x}
  {
    InsertByKeyPerm(s, x);
    InsertByKeySorted(s, x);
  }

  /** Inserting adds exactly one entry, x. */
  lemma {:induction false} InsertByKeyPerm(s: seq<(int, real)>, x: (int, real))
    ensures multiset(InsertByKey(s, x)) == multiset(s) + multiset{x}
  {
    if s != [] && x.0 >= s[0].0 {
      InsertByKeyPerm(s[1..], x);
      assert s == [s[0]] + s[1..];
    }
  }

  /** Inserting into a key-sorted list keeps it key-sorted. */
  lemma {:induction false} InsertByKeySorted(s: seq<(int, real)>, x: (int, real))
    requires SortedByKey(s)
    ensures SortedByKey(InsertByKey(s, x))
  {
    if s == [] {
    } else if x.0 < s[0].0 {
      forall y | y in s ensures x.0 <= y.0 {
        var k :| 0 <= k < |s| && s[k] == y;
      }
      SortedCons(x, s);
    } else {
      var tail := s[1..];
      assert SortedByKey(tail);
      InsertByKeySorted(tail, x);
      InsertByKeyPerm(tail, x);
      var rest := InsertByKey(tail, x);
      forall y | y in rest ensures s[0].0 <= y.0 {
        assert y in multiset(rest);
        if y != x {
          assert y in multiset(tail);
          var k :| 0 <= k < |tail| && tail[k] == y;
          assert s[k + 1] == y;
        }
      }
      SortedCons(s[0], rest);
    }
  }

  /** An entry whose key is not above any key of a sorted list can go in
      front of it. */
  lemma SortedCons(h: (int, real), t: seq<(int, real)>)
    requires SortedByKey(t) && forall y | y in t :: h.0 <= y.0
    ensures SortedByKey([h] + t)
  {
    forall i, j | 0 <= i < j < |[h] + t| ensures ([h] + t)[i].0 <= ([h] + t)[j].0 {
      if i == 0 {
        assert ([h] + t)[j] == t[j - 1];
      } else {
        assert ([h] + t)[i] == t[i - 1] && ([h] + t)[j] == t[j - 1];
      }
    }
  }

  /** Sorting orders by key and keeps every entry exactly once. */
  lemma {:induction false} SortByKeySpec(items: seq<(int, real)>)
    ensures SortedByKey(SortByKey(items))
    ensures multiset(SortByKey(items)) == multiset(items)
  {
    if items != [] {
      var m := |items| - 1;
      var front := SortByKey(items[..m]);
      SortByKeySpec(items[..m]);
      InsertByKeySpec(front, items[m]);
      assert SortByKey(items) == InsertByKey(front, items[m]);
      assert items == items[..m] + [items[m]];
      assert multiset(items) == multiset(items[..m]) + multiset{items[m]};
    }
  }

  /** Linear interpolation between (kl, vl) and (k, v) at `epoch`: the
      weight of v is (epoch - kl) / (k - kl), by true division. */
  function Interp(epoch: int, kl: int, vl: real, k: int, v: real): real
    requires kl < k
  {
    var prop := (epoch - kl) as real / (k - kl) as real;
    (1.0 - prop) * vl + prop * v
  }

  /** e is the entry with the smallest key not below `epoch`. */
  ghost predicate IsNextKey(items: seq<(int, real)>, epoch: int, e: (int, real)) {
    e in items && epoch <= e.0 && forall x | x in items && epoch <= x.0 :: e.0 <= x.0
  }

  /** l is the entry with the largest key below `epoch`. */
  ghost predicate IsPrevKey(items: seq<(int, real)>, epoch: int, l: (int, real)) {
    l in items && l.0 < epoch && forall x | x in items && x.0 < epoch :: x.0 <= l.0
  }

  /** e is the entry with the largest key. */
  ghost predicate IsLastKey(items: seq<(int, real)>, e: (int, real)) {
    e in items && forall x | x in items :: x.0 <= e.0
  }

  /** The value the schedule promises at `epoch`: the value of the first
      key when the epoch is at or before it; the interpolation between the
      keys around the epoch; the value of the last key after it. */
  ghost predicate ScheduleValue(items: seq<(int, real)>, epoch: int, val: real) {
    || (exists e :: IsNextKey(items, epoch, e) && (forall x | x in items :: epoch <= x.0) && val == e.1)
    || (exists e, l :: IsNextKey(items, epoch, e) && IsPrevKey(items, epoch, l) && val == Interp(epoch, l.0, l.1, e.0, e.1))
    || (exists e :: IsLastKey(items, e) && (forall x | x in items :: x.0 < epoch) && val == e.1)
  }

  /** s holds the same entries as items. */
  ghost predicate SameEntries(s: seq<(int, real)>, items: seq<(int, real)>) {
    forall x :: x in s <==> x in items
  }

  /** The sorted entries are the entries. */
  lemma SortedEntries(items: seq<(int, real)>)
    ensures SortedByKey(SortByKey(items)) && SameEntries(SortByKey(items), items)
    ensures |SortByKey(items)| == |items|
  {
    var s := SortByKey(items);
    SortByKeySpec(items);
    forall x ensures x in s <==> x in items {
      assert x in s <==> x in multiset(s);
      assert x in items <==> x in multiset(items);
    }
    assert |multiset(s)| == |multiset(items)|;
  }

  lemma ScheduleAtFirst(items: seq<(int, real)>, s: seq<(int, real)>, epoch: int)
    requires SortedByKey(s) && SameEntries(s, items)
    requires s != [] && epoch <= s[0].0
    ensures ScheduleValue(items, epoch, s[0].1)
  {
    forall x | x in items ensures epoch <= x.0 && s[0].0 <= x.0 {
      var j :| 0 <= j < |s| && s[j] == x;
    }
    assert IsNextKey(items, epoch, s[0]);
  }

  lemma ScheduleBetweenKeys(items: seq<(int, real)>, s: seq<(int, real)>, epoch: int, i: nat)
    requires SortedByKey(s) && SameEntries(s, items)
    requires 0 < i < |s| && s[i - 1].0 < epoch <= s[i].0
    ensures ScheduleValue(items, epoch, Interp(epoch, s[i - 1].0, s[i - 1].1, s[i].0, s[i].1))
  {
    forall x | x in items && epoch <= x.0 ensures s[i].0 <= x.0 {
      var j :| 0 <= j < |s| && s[j] == x;
    }
    forall x | x in items && x.0 < epoch ensures x.0 <= s[i - 1].0 {
      var j :| 0 <= j < |s| && s[j] == x;
    }
    assert IsNextKey(items, epoch, s[i]) && IsPrevKey(items, epoch, s[i - 1]);
  }

  lemma SchedulePastLast(items: seq<(int, real)>, s: seq<(int, real)>, epoch: int)
    requires SortedByKey(s) && SameEntries(s, items)
    requires s != [] && forall k | 0 <= k < |s| :: s[k].0 < epoch
    ensures ScheduleValue(items, epoch, s[|s| - 1].1)
  {
    forall x | x in items ensures x.0 < epoch && x.0 <= s[|s| - 1].0 {
      var j :| 0 <= j < |s| && s[j] == x;
    }
    assert IsLastKey(items, s[|s| - 1]);
  }

  /** schedule: sorts the entries by key and returns at the first key not
      below the epoch, interpolating from the previous key if there is one;
      past the last key the loop variable still holds the last value, and
      with no entries at all it was never bound (NameError). */
  method Schedule(epoch: int, items: seq<(int, real)>) returns (r: Result<real>)
    requires DistinctKeys(items)
    ensures r.Err? <==> items == []
    ensures r.Err? ==> r.error == NameError
    ensures r.Ok? ==> ScheduleValue(items, epoch, r.value)
  {
    var s := SortByKey(items);
    SortedEntries(items);
    for i := 0 to |s|
      invariant forall i' | 0 <= i' < i :: s[i'].0 < epoch
    {
      var k, v := s[i].0, s[i].1;
      if epoch <= k {
        if i == 0 {
          ScheduleAtFirst(items, s, epoch);
          return Ok(v);
        }
        var kl, vl := s[i - 1].0, s[i - 1].1;
        ScheduleBetweenKeys(items, s, epoch, i);
        return Ok(Interp(epoch, kl, vl, k, v));
      }
    }
    if |s| == 0 {
      return Err(NameError);
    }
    SchedulePastLast(items, s, epoch);
    return Ok(s[|s| - 1].1);
  }

  lemma ScaleDown(p: real, d: real)
    requires 0.0 <= p <= 1.0 && 0.0 <= d
    ensures 0.0 <= p * d <= d
  {
    assert d - p * d == (1.0 - p) * d;
    assert (1.0 - p) * d >= 0.0;
  }

  /** Between two keys the schedule stays between their values, and at the
      upper key it is that key's value. */
  lemma InterpBetween(epoch: int, kl: int, vl: real, k: int, v: real)
    requires kl < epoch <= k
    ensures vl <= v ==> vl <= Interp(epoch, kl, vl, k, v) <= v
    ensures v <= vl ==> v <= Interp(epoch, kl, vl, k, v) <= vl
    ensures epoch == k ==> Interp(epoch, kl, vl, k, v) == v
  {
    var prop := (epoch - kl) as real / (k - kl) as real;
    Fraction((epoch - kl) as real, (k - kl) as real);
    if epoch == k {
      assert prop == 1.0;
    }
    assert Interp(epoch, kl, vl, k, v) == vl + prop * (v - vl);
    if vl <= v {
      ScaleDown(prop, v - vl);
      assert 0.0 <= prop * (v - vl) <= v - vl;
    } else {
      ScaleDown(prop, vl - v);
      assert prop * (v - vl) == -(prop * (vl - v));
      assert 0.0 <= prop * (vl - v) <= vl - v;
    }
  }

  lemma Fraction(a: real, b: real)
    requires 0.0 < a <= b
    ensures 0.0 < a / b <= 1.0
  {
  }

  lemma SameKeySameEntry(items: seq<(int, real)>, e1: (int, real), e2: (int, real))
    requires DistinctKeys(items) && e1 in items && e2 in items && e1.0 == e2.0
    ensures e1 == e2
  {
    var a :| 0 <= a < |items| && items[a] == e1;
    var b :| 0 <= b < |items| && items[b] == e2;
  }

  /** At a key of the schedule the schedule returns that key's value. */
  lemma ScheduleAtKey(items: seq<(int, real)>, epoch: int, v: real, val: real)
    requires DistinctKeys(items) && (epoch, v) in items
    requires ScheduleValue(items, epoch, val)
    ensures val == v
  {
    if exists e :: IsNextKey(items, epoch, e) && (forall x | x in items :: epoch <= x.0) && val == e.1 {
      var e :| IsNextKey(items, epoch, e) && val == e.1;
      SameKeySameEntry(items, e, (epoch, v));
    } else if exists e, l :: IsNextKey(items, epoch, e) && IsPrevKey(items, epoch, l) && val == Interp(epoch, l.0, l.1, e.0, e.1) {
      var e, l :| IsNextKey(items, epoch, e) && IsPrevKey(items, epoch, l) && val == Interp(epoch, l.0, l.1, e.0, e.1);
      SameKeySameEntry(items, e, (epoch, v));
      InterpBetween(epoch, l.0, l.1, e.0, e.1);
    } else {
      assert false;
    }
  }

  /** The promised value is unique: the schedule is a function of the
      epoch. */
  lemma ScheduleValueUnique(items: seq<(int, real)>, epoch: int, v1: real, v2: real)
    requires DistinctKeys(items)
    requires ScheduleValue(items, epoch, v1) && ScheduleValue(items, epoch, v2)
    ensures v1 == v2
  {
    var c1 := ScheduleCase(items, epoch, v1);
    var c2 := ScheduleCase(items, epoch, v2);
    SameKeySameEntry(items, c1.0, c2.0);
    if c1.2 == 1 {
      SameKeySameEntry(items, c1.1, c2.1);
    }
  }

  /** Which disjunct of `ScheduleValue` holds, with its entries: case 0 uses
      only the next entry, case 1 the previous and next entries, case 2 the
      last entry. Distinct calls on the same items and epoch pick the same
      case and entries with the same keys. */
  lemma ScheduleCase(items: seq<(int, real)>, epoch: int, val: real) returns (c: ((int, real), (int, real), nat))
    requires DistinctKeys(items) && ScheduleValue(items, epoch, val)
    ensures c.0 in items && c.1 in items && c.2 <= 2
    ensures c.2 == 0 <==> (exists x | x in items :: epoch <= x.0) && (forall x | x in items :: epoch <= x.0)
    ensures c.2 == 1 <==> (exists x | x in items :: epoch <= x.0) && (exists x | x in items :: x.0 < epoch)
    ensures c.2 == 0 ==> IsNextKey(items, epoch, c.0) && val == c.0.1
    ensures c.2 == 1 ==> IsNextKey(items, epoch, c.0) && IsPrevKey(items, epoch, c.1) && val == Interp(epoch, c.1.0, c.1.1, c.0.0, c.0.1)
    ensures c.2 == 2 ==> IsLastKey(items, c.0) && (forall x | x in items :: x.0 < epoch) && val == c.0.1
  {
    if exists e :: IsNextKey(items, epoch, e) && (forall x | x in items :: epoch <= x.0) && val == e.1 {
      var e :| IsNextKey(items, epoch, e) && (forall x | x in items :: epoch <= x.0) && val == e.1;
      c := (e, e, 0);
    } else if exists e, l :: IsNextKey(items, epoch, e) && IsPrevKey(items, epoch, l) && val == Interp(epoch, l.0, l.1, e.0, e.1) {
      var e, l :| IsNextKey(items, epoch, e) && IsPrevKey(items, epoch, l) && val == Interp(epoch, l.0, l.1, e.0, e.1);
      c := (e, l, 1);
    } else {
      var e :| IsLastKey(items, e) && (forall x | x in items :: x.0 < epoch) && val == e.1;
      c := (e, e, 2);
    }
  }

  // ---------------------------------------------------------------------
  // prod

  function Product(xs: seq<int>): int {
    if xs == [] then 1 else Product(xs[..|xs| - 1]) * xs[|xs| - 1]
  }

  /** prod: multiplies the elements into an accumulator starting at 1. */
  method Prod(xs: seq<int>) returns (p: int)
    ensures p == Product(xs)
  {
    p := 1;
    for k := 0 to |xs|
      invariant p == Product(xs[..k])
    {
      assert xs[..k + 1][..k] == xs[..k];
      p := p * xs[k];
    }
    assert xs[..|xs|] == xs;
  }

  /** The product of a concatenation is the product of the products. */
  lemma {:induction false} ProductAppend(a: seq<int>, b: seq<int>)
    ensures Product(a + b) == Product(a) * Product(b)
    decreases |b|
  {
    if b == [] {
      assert a + b == a;
    } else {
      var m := |b| - 1;
      assert (a + b)[..|a| + m] == a + b[..m];
      ProductAppend(a, b[..m]);
    }
  }

  /** The product is zero exactly when some element is zero. */
  lemma {:induction false} ProductZero(xs: seq<int>)
    ensures Product(xs) == 0 <==> 0 in xs
  {
    if xs != [] {
      var m := |xs| - 1;
      ProductZero(xs[..m]);
      assert xs == xs[..m] + [xs[m]];
    }
  }

  // ---------------------------------------------------------------------
  // intlist

  /** Python's int() of a float: truncation toward zero. */
  function Trunc(x: real): (r: int)
    ensures 0.0 <= x ==> r as real <= x < r as real + 1.0
    ensures x < 0.0 ==> r as real - 1.0 < x <= r as real
  {
    if x >= 0.0 then x.Floor else -((-x).Floor)
  }

  /** What intlist accepts: a list or tuple (returned as it is), or a
      tensor given by its shape and its entries in row-major order. */
  datatype IntListInput = PyList(items: seq<int>) | PyTuple(items: seq<int>) | Tensor(shape: seq<nat>, data: seq<real>)

  /** `tensor.squeeze()`: every dimension of size 1 removed. */
  function Squeeze(shape: seq<nat>): (r: seq<nat>)
    ensures forall k | 0 <= k < |r| :: r[k] != 1
    ensures |r| <= |shape|
  {
    if shape == [] then []
    else Squeeze(shape[..|shape| - 1]) + (if shape[|shape| - 1] == 1 then [] else [shape[|shape| - 1]])
  }

  lemma {:induction false} SqueezeKeepsProduct(shape: seq<nat>)
    ensures Product(Squeeze(shape)) == Product(shape)
  {
    if shape != [] {
      var m := |shape| - 1;
      SqueezeKeepsProduct(shape[..m]);
      ProductAppend(Squeeze(shape[..m]), if shape[m] == 1 then [] else [shape[m]]);
    }
  }

  /** intlist: lists and tuples pass through; a tensor is squeezed, must
      then have exactly one dimension (asserted), and each entry is
      converted with int(). */
  method IntList(input: IntListInput) returns (r: Result<seq<int>>)
    requires input.Tensor? ==> |input.data| == Product(input.shape)
    ensures !input.Tensor? ==> r == Ok(input.items)
    ensures input.Tensor? ==> (r.Ok? <==> |Squeeze(input.shape)| == 1)
    ensures input.Tensor? && r.Err? ==> r.error == AssertionError
    ensures input.Tensor? && r.Ok? ==>
      && |r.value| == |input.data|
      && forall i | 0 <= i < |input.data| :: r.value[i] == Trunc(input.data[i])
  {
    if !input.Tensor? {
      return Ok(input.items);
    }
    var squeezed := Squeeze(input.shape);
    if |squeezed| != 1 {
      return Err(AssertionError);
    }
    SqueezeKeepsProduct(input.shape);
    assert Product(squeezed) == squeezed[0] by {
      assert squeezed[..0] == [];
    }
    var s := squeezed[0];
    var l := new int[s];
    for i := 0 to s
      invariant forall i' | 0 <= i' < i :: l[i'] == Trunc(input.data[i'])
    {
      l[i] := Trunc(input.data[i]);
    }
    r := Ok(l[..]);
  }

  /** A one-element tensor squeezes to no dimension at all, so intlist
      rejects it even though it holds a single integer. */
  lemma SingleElementTensorRejected(dims: nat)
    ensures |Squeeze(seq(dims, _ => 1))| == 0
  {
    SqueezeOnes(dims);
  }

  lemma {:induction false} SqueezeOnes(dims: nat)
    ensures Squeeze(seq(dims, _ => 1)) == []
  {
    if dims > 0 {
      SqueezeOnes(dims - 1);
      assert seq(dims, _ => 1)[..dims - 1] == seq(dims - 1, _ => 1);
    }
  }

  // ---------------------------------------------------------------------
  // contains_nan, contains_inf

  /** A float tensor entry. */
  datatype Float = Finite(v: real) | NaN | PosInf | NegInf

  predicate IsNaN(x: Float) { x.NaN? }

  predicate IsInf(x: Float) { x.PosInf? || x.NegInf? }

  /** `test(values).sum() > 0`: some entry passes the test. */
  predicate AnyMatch(values: seq<Float>, test: Float -> bool) {
    exists k | 0 <= k < |values| :: test(values[k])
  }

  lemma AnyMatchAppend(a: seq<Float>, b: seq<Float>, test: Float -> bool)
    ensures AnyMatch(a + b, test) <==> AnyMatch(a, test) || AnyMatch(b, test)
  {
    if AnyMatch(b, test) {
      var i :| 0 <= i < |b| && test(b[i]);
      assert (a + b)[|a| + i] == b[i];
    }
    if AnyMatch(a, test) {
      var i :| 0 <= i < |a| && test(a[i]);
      assert (a + b)[i] == a[i];
    }
    if AnyMatch(a + b, test) {
      var i :| 0 <= i < |a + b| && test((a + b)[i]);
      if i >= |a| {
        assert b[i - |a|] == (a + b)[i];
      } else {
        assert a[i] == (a + b)[i];
      }
    }
  }

  /** The input of contains_nan / contains_inf: a tensor, a non-tensor
      iterable of further inputs, or anything else, which torch.isnan /
      torch.isinf refuse with TypeError. */
  datatype Nested = Leaf(values: seq<Float>) | Iterable(items: seq<Nested>) | Other

  /** The shared recursion of contains_nan and contains_inf: a tensor is
      tested entry by entry; an iterable is scanned in order and the scan
      stops at the first item that contains a match. */
  function ContainsWhere(x: Nested, test: Float -> bool): Result<bool>
    decreases x, 1
  {
    match x
    case Leaf(values) => Ok(AnyMatch(values, test))
    case Iterable(items) => ScanItems(x, items, 0, test)
    case Other => Err(TypeError)
  }

  function ScanItems(parent: Nested, items: seq<Nested>, k: nat, test: Float -> bool): Result<bool>
    requires parent.Iterable? && items == parent.items && k <= |items|
    decreases parent, 0, |items| - k
  {
    if k == |items| then Ok(false)
    else
      var first := ContainsWhere(items[k], test);
      if first.Err? then first
      else if first.value then Ok(true)
      else ScanItems(parent, items, k + 1, test)
  }

  function ContainsNaN(x: Nested): Result<bool> { ContainsWhere(x, IsNaN) }

  function ContainsInf(x: Nested): Result<bool> { ContainsWhere(x, IsInf) }

  /** No non-tensor leaf anywhere. */
  predicate AllTensors(x: Nested) {
    match x
    case Leaf(_) => true
    case Iterable(items) => forall k | 0 <= k < |items| :: AllTensors(items[k])
    case Other => false
  }

  /** Every tensor entry, depth first. */
  function Entries(x: Nested): seq<Float>
    decreases x, 1
  {
    match x
    case Leaf(values) => values
    case Iterable(items) => EntriesOf(x, items, 0)
    case Other => []
  }

  function EntriesOf(parent: Nested, items: seq<Nested>, k: nat): seq<Float>
    requires parent.Iterable? && items == parent.items && k <= |items|
    decreases parent, 0, |items| - k
  {
    if k == |items| then [] else Entries(items[k]) + EntriesOf(parent, items, k + 1)
  }

  /** Over tensors only, the search answers whether any entry passes the
      test, however the entries are nested. */
  lemma {:induction false} ContainsWhereMeaning(x: Nested, test: Float -> bool)
    requires AllTensors(x)
    ensures ContainsWhere(x, test) == Ok(AnyMatch(Entries(x), test))
    decreases x, 1
  {
    if x.Iterable? {
      ScanItemsMeaning(x, x.items, 0, test);
    }
  }

  lemma {:induction false} ScanItemsMeaning(parent: Nested, items: seq<Nested>, k: nat, test: Float -> bool)
    requires parent.Iterable? && items == parent.items && k <= |items|
    requires forall i | 0 <= i < |items| :: AllTensors(items[i])
    ensures ScanItems(parent, items, k, test) == Ok(AnyMatch(EntriesOf(parent, items, k), test))
    decreases parent, 0, |items| - k
  {
    if k < |items| {
      ContainsWhereMeaning(items[k], test);
      ScanItemsMeaning(parent, items, k + 1, test);
      AnyMatchAppend(Entries(items[k]), EntriesOf(parent, items, k + 1), test);
    }
  }

  /** A non-tensor leaf is only reached, and raises, when nothing before it
      matched: an input without any match but with such a leaf raises. */
  lemma {:induction false} OtherWithoutMatchRaises(x: Nested, test: Float -> bool)
    requires !AllTensors(x) && !AnyMatch(Entries(x), test)
    ensures ContainsWhere(x, test) == Err(TypeError)
    decreases x, 1
  {
    if x.Iterable? {
      ScanOtherRaises(x, x.items, 0, test);
    }
  }

  lemma {:induction false} ScanOtherRaises(parent: Nested, items: seq<Nested>, k: nat, test: Float -> bool)
    requires parent.Iterable? && items == parent.items && k <= |items|
    requires exists i | k <= i < |items| :: !AllTensors(items[i])
    requires !AnyMatch(EntriesOf(parent, items, k), test)
    ensures ScanItems(parent, items, k, test) == Err(TypeError)
    decreases parent, 0, |items| - k
  {
    AnyMatchAppend(Entries(items[k]), EntriesOf(parent, items, k + 1), test);
    if AllTensors(items[k]) {
      ContainsWhereMeaning(items[k], test);
      ScanOtherRaises(parent, items, k + 1, test);
    } else {
      OtherWithoutMatchRaises(items[k], test);
    }
  }

  // ---------------------------------------------------------------------
  // batch

  /** The outputs of the model on the chunks from `fr` on, concatenated;
      each chunk ends at min(n, fr + bs). */
  function ChunkOutputs<T, U>(inputs: seq<T>, bs: nat, fr: nat, model: seq<T> -> seq<U>): seq<U>
    requires bs > 0 && fr <= |inputs|
    decreases |inputs| - fr
  {
    if fr == |inputs| then []
    else
      var to := Min(|inputs|, fr + bs);
      model(inputs[fr..to]) + ChunkOutputs(inputs, bs, to, model)
  }

  /** batch: applies the model chunk by chunk, fr running over
      range(0, n, bs), and concatenates the outputs. A zero batch size
      makes `range` raise; no chunk at all (no rows, or a negative batch
      size) leaves nothing for torch.cat, which raises. The rows of all
      inputs are given zipped together. */
  /** One iteration of `batch`: appending the next chunk's output moves it
      from the outputs still to come to the outputs collected. */
  lemma ChunkStep<T, U>(outs: seq<seq<U>>, inputs: seq<T>, bs: nat, fr: nat, model: seq<T> -> seq<U>)
    requires bs > 0 && fr < |inputs|
    requires Concat(outs) + ChunkOutputs(inputs, bs, fr, model) == ChunkOutputs(inputs, bs, 0, model)
    ensures var to := Min(|inputs|, fr + bs);
      Concat(outs + [model(inputs[fr..to])]) + ChunkOutputs(inputs, bs, to, model) == ChunkOutputs(inputs, bs, 0, model)
  {
    var to := Min(|inputs|, fr + bs);
    var out := model(inputs[fr..to]);
    ConcatSnoc(outs, out);
    assert (Concat(outs) + out) + ChunkOutputs(inputs, bs, to, model) == Concat(outs) + (out + ChunkOutputs(inputs, bs, to, model));
  }

  method BatchApply<T, U>(inputs: seq<T>, bs: int, model: seq<T> -> seq<U>) returns (r: Result<seq<U>>)
    ensures bs == 0 ==> r == Err(ValueError)
    ensures bs != 0 && (bs < 0 || inputs == []) ==> r == Err(RuntimeError)
    ensures bs > 0 && inputs != [] ==> r == Ok(ChunkOutputs(inputs, bs, 0, model))
  {
    if bs == 0 {
      return Err(ValueError);
    }
    var outs: seq<seq<U>> := [];
    if bs > 0 {
      var fr := 0;
      while fr < |inputs|
        invariant 0 <= fr <= |inputs|
        invariant Concat(outs) + ChunkOutputs(inputs, bs, fr, model) == ChunkOutputs(inputs, bs, 0, model)
        invariant (outs == []) == (fr == 0)
      {
        var to := Min(|inputs|, fr + bs);
        var batchRows := inputs[fr..to];
        ChunkStep(outs, inputs, bs, fr, model);
        outs := outs + [model(batchRows)];
        fr := to;
      }
    }
    if outs == [] {
      return Err(RuntimeError);
    }
    r := Ok(Concat(outs));
    assert Concat(outs) + [] == Concat(outs);
  }

  /** The chunks cover the rows in order: applying the identity batch-wise
      gives the rows back. */
  lemma {:induction false} ChunksCover<T>(inputs: seq<T>, bs: nat, fr: nat)
    requires bs > 0 && fr <= |inputs|
    ensures ChunkOutputs(inputs, bs, fr, (xs: seq<T>) => xs) == inputs[fr..]
    decreases |inputs| - fr
  {
    if fr < |inputs| {
      var to := Min(|inputs|, fr + bs);
      ChunksCover(inputs, bs, to);
      assert inputs[fr..] == inputs[fr..to] + inputs[to..];
    }
  }

  /** f applied to every row. */
  function MapRows<T, U>(f: T -> U, xs: seq<T>): (r: seq<U>)
    ensures |r| == |xs| && forall i | 0 <= i < |xs| :: r[i] == f(xs[i])
  {
    seq(|xs|, i requires 0 <= i < |xs| => f(xs[i]))
  }

  /** Batching does not change the result of a row-wise model: the
      concatenated outputs are the model applied to every row. */
  lemma {:induction false} RowwiseModelUnchanged<T, U>(inputs: seq<T>, bs: nat, fr: nat, f: T -> U, model: seq<T> -> seq<U>)
    requires bs > 0 && fr <= |inputs|
    requires forall xs: seq<T> :: model(xs) == MapRows(f, xs)
    ensures ChunkOutputs(inputs, bs, fr, model) == MapRows(f, inputs[fr..])
    decreases |inputs| - fr
  {
    if fr < |inputs| {
      var to := Min(|inputs|, fr + bs);
      RowwiseModelUnchanged(inputs, bs, to, f, model);
      var a, b := MapRows(f, inputs[fr..to]), MapRows(f, inputs[to..]);
      assert model(inputs[fr..to]) == a;
      assert MapRows(f, inputs[fr..]) == a + b;
    }
  }

  // ---------------------------------------------------------------------
  // get_slug

  /** Characters Python's str.strip() removes, restricted to ASCII. */
  predicate IsSpace(c: char) {
    c == ' ' || c == '\t' || c == '\n' || c == '\r' || c == '\U{0b}' || c == '\U{0c}'
    || ('\U{1c}' <= c <= '\U{1f}')
  }

  /** The character class [-\w.] for ASCII characters. */
  predicate SlugChar(c: char) {
    ('a' <= c <= 'z') || ('A' <= c <= 'Z') || ('0' <= c <= '9') || c == '_' || c == '-' || c == '.'
  }

  function StripLeft(s: string): (r: string)
    ensures |r| <= |s| && (r != [] ==> !IsSpace(r[0]))
  {
    if s != [] && IsSpace(s[0]) then StripLeft(s[1..]) else s
  }

  function StripRight(s: string): (r: string)
    ensures |r| <= |s| && (r != [] ==> !IsSpace(r[|r| - 1]))
  {
    if s != [] && IsSpace(s[|s| - 1]) then StripRight(s[..|s| - 1]) else s
  }

  function Strip(s: string): string { StripRight(StripLeft(s)) }

  /** Every space becomes an underscore. */
  function SpacesToUnderscores(s: string): (r: string)
    ensures |r| == |s| && forall i | 0 <= i < |s| :: r[i] == if s[i] == ' ' then '_' else s[i]
  {
    seq(|s|, i requires 0 <= i < |s| => if s[i] == ' ' then '_' else s[i])
  }

  /** `re.sub(r'[^-\w.]', '', s)`: keeps the class's characters, in order. */
  function KeepSlugChars(s: string): string {
    if s == [] then []
    else KeepSlugChars(s[..|s| - 1]) + (if SlugChar(s[|s| - 1]) then [s[|s| - 1]] else [])
  }

  /** get_slug. */
  function GetSlug(s: string): string {
    KeepSlugChars(SpacesToUnderscores(Strip(s)))
  }

  /** Filtering keeps only the class's characters and leaves a string made
      of them alone. */
  lemma {:induction false} KeepSlugCharsSpec(s: string)
    ensures forall i | 0 <= i < |KeepSlugChars(s)| :: SlugChar(KeepSlugChars(s)[i])
    ensures (forall i | 0 <= i < |s| :: SlugChar(s[i])) ==> KeepSlugChars(s) == s
  {
    if s != [] {
      var m := |s| - 1;
      KeepSlugCharsSpec(s[..m]);
      assert s == s[..m] + [s[m]];
    }
  }

  /** A slug is made only of the class's characters, has no spaces, and
      slugging it again changes nothing. */
  lemma GetSlugSpec(s: string)
    ensures forall i | 0 <= i < |GetSlug(s)| :: SlugChar(GetSlug(s)[i]) && GetSlug(s)[i] != ' '
    ensures GetSlug(GetSlug(s)) == GetSlug(s)
  {
    var g := GetSlug(s);
    KeepSlugCharsSpec(SpacesToUnderscores(Strip(s)));
    assert AllSlugChars(g);
    SlugStringFixed(g);
    KeepSlugCharsSpec(g);
  }

  predicate AllSlugChars(g: string) {
    forall i | 0 <= i < |g| :: SlugChar(g[i])
  }

  /** Stripping and replacing spaces leave a string of slug characters
      alone. */
  lemma SlugStringFixed(g: string)
    requires AllSlugChars(g)
    ensures Strip(g) == g && SpacesToUnderscores(g) == g
  {
    if g != [] {
      assert SlugChar(g[0]) && SlugChar(g[|g| - 1]);
    }
    assert StripLeft(g) == g;
    assert StripRight(g) == g;
    var u := SpacesToUnderscores(g);
    forall i | 0 <= i < |g| ensures u[i] == g[i] {
      assert SlugChar(g[i]);
    }
  }

  /** Inner spaces survive as underscores, allowed characters are kept and
      everything else is dropped. */
  lemma GetSlugExample()
    ensures GetSlug(" a b#.c ") == "a_b.c"
  {
    StripExample();
    KeepExample();
  }

  /** The example's outer spaces go, its inner space becomes an underscore. */
  lemma StripExample()
    ensures SpacesToUnderscores(Strip(" a b#.c ")) == "a_b#.c"
  {
    assert " a b#.c "[1..] == "a b#.c ";
    assert StripLeft(" a b#.c ") == "a b#.c ";
    assert "a b#.c "[..6] == "a b#.c";
    assert StripRight("a b#.c ") == "a b#.c";
  }

  /** The example's '#' is dropped, everything else is kept. */
  lemma KeepExample()
    ensures KeepSlugChars("a_b#.c") == "a_b.c"
  {
    var t := "a_b#.c";
    assert KeepSlugChars(t[..1]) == "a";
    assert t[..2][..1] == t[..1];
    assert KeepSlugChars(t[..2]) == "a_";
    assert t[..3][..2] == t[..2];
    assert KeepSlugChars(t[..3]) == "a_b";
    assert t[..4][..3] == t[..3];
    assert KeepSlugChars(t[..4]) == "a_b";
    assert t[..5][..4] == t[..4];
    assert KeepSlugChars(t[..5]) == "a_b.";
    assert t[..5] == t[..|t| - 1];
  }
}
