/** The in-memory half of load_link_prediction_data (lp_utils.py): the
    dataset name check, the train/test selection, and the indexing of node
    and relation names into ids with the set of all known triples. The
    files themselves arrive already read and split into rows of tokens. */
module Loading {
  import opened Common

  /** A line of a dataset file, split on whitespace. */
  type Row = seq<string>

  /** ASCII lower-casing. */
  function Lower(s: string): (r: string)
    ensures |r| == |s|
    ensures forall i | 0 <= i < |s| :: r[i] == if 'A' <= s[i] <= 'Z' then (s[i] as int + 32) as char else s[i]
  {
    seq(|s|, i requires 0 <= i < |s| => if 'A' <= s[i] <= 'Z' then (s[i] as int + 32) as char else s[i])
  }

  /** The four datasets the loader knows, by case-insensitive name. */
  predicate KnownDataset(name: string) {
    Lower(name) in {"fb15k", "fb15k-237", "wn18", "wn18rr"}
  }

  lemma KnownDatasetExamples()
    ensures KnownDataset("FB15k-237") && KnownDataset("WN18RR")
    ensures !KnownDataset("aifb")
  {
    assert Lower("FB15k-237") == "fb15k-237";
    assert Lower("WN18RR") == "wn18rr";
    assert Lower("aifb") == "aifb";
  }

  /** `xs[:limit]` with Python's slice semantics, negative limits counting
      from the end. */
  function Head<T>(xs: seq<T>, limit: int): (r: seq<T>)
    ensures 0 <= limit ==> r == xs[..Min(limit, |xs|)]
    ensures limit < 0 ==> r == xs[..if |xs| + limit < 0 then 0 else |xs| + limit]
  {
    if 0 <= limit then xs[..Min(limit, |xs|)]
    else if |xs| + limit < 0 then [] else xs[..|xs| + limit]
  }

  /** The train and test rows the loader indexes: with the test set the
      validation rows join the training rows, otherwise they replace the
      test rows; a limit that is neither None nor 0 keeps only a prefix of
      both. */
  function Selected(train: seq<Row>, val: seq<Row>, test: seq<Row>, useTestSet: bool, limit: Option<int>): (seq<Row>, seq<Row>) {
    var (tr, te) := if useTestSet then (train + val, test) else (train, val);
    if limit.Some? && limit.value != 0 then (Head(tr, limit.value), Head(te, limit.value)) else (tr, te)
  }

  /** Every row unpacks into (s, p, o). */
  predicate Triples(rows: seq<Row>) {
    forall k | 0 <= k < |rows| :: |rows[k]| == 3
  }

  /** The subject and object names of the rows. */
  function NodesOf(rows: seq<Row>): set<string>
    requires Triples(rows)
  {
    if rows == [] then {}
    else NodesOf(rows[..|rows| - 1]) + {rows[|rows| - 1][0], rows[|rows| - 1][2]}
  }

  /** The predicate names of the rows. */
  function RelsOf(rows: seq<Row>): set<string>
    requires Triples(rows)
  {
    if rows == [] then {} else RelsOf(rows[..|rows| - 1]) + {rows[|rows| - 1][1]}
  }

  /** A node is a name in subject or object position; a relation a name in
      predicate position. */
  lemma {:induction false} NamesOfMeaning(rows: seq<Row>, x: string)
    requires Triples(rows)
    ensures x in NodesOf(rows) <==> exists k | 0 <= k < |rows| :: x == rows[k][0] || x == rows[k][2]
    ensures x in RelsOf(rows) <==> exists k | 0 <= k < |rows| :: x == rows[k][1]
  {
    if rows != [] {
      var m := |rows| - 1;
      NamesOfMeaning(rows[..m], x);
      assert forall k | 0 <= k < m :: rows[..m][k] == rows[k];
      if x in NodesOf(rows[..m]) {
        var k :| 0 <= k < m && (x == rows[..m][k][0] || x == rows[..m][k][2]);
      }
      if x in RelsOf(rows[..m]) {
        var k :| 0 <= k < m && x == rows[..m][k][1];
      }
    }
  }

  predicate Distinct(xs: seq<string>) {
    forall i, j | 0 <= i < j < |xs| :: xs[i] != xs[j]
  }

  /** `list(names)` next to `{n: i for i, n in enumerate(names)}`: the list
      enumerates the set once, and the dictionary sends each name to its
      position. */
  ghost predicate IsIndex(i2n: seq<string>, n2i: map<string, nat>, names: set<string>) {
    && Distinct(i2n)
    && (forall x :: x in i2n <==> x in names)
    && n2i.Keys == names
    && (forall i | 0 <= i < |i2n| :: i2n[i] in n2i && n2i[i2n[i]] == i)
  }

  /** The two halves of an index are inverse to each other. */
  lemma IndexInverse(i2n: seq<string>, n2i: map<string, nat>, names: set<string>, x: string)
    requires IsIndex(i2n, n2i, names) && x in names
    ensures n2i[x] < |i2n| && i2n[n2i[x]] == x
  {
    var i :| 0 <= i < |i2n| && i2n[i] == x;
  }

  /** The ids of a row; every name must be indexed. */
  function MapRow(row: Row, n2i: map<string, nat>, r2i: map<string, nat>): Triple
    requires |row| == 3 && row[0] in n2i && row[1] in r2i && row[2] in n2i
  {
    Triple(n2i[row[0]], r2i[row[1]], n2i[row[2]])
  }

  predicate Indexed(rows: seq<Row>, n2i: map<string, nat>, r2i: map<string, nat>) {
    forall k | 0 <= k < |rows| :: |rows[k]| == 3 && rows[k][0] in n2i && rows[k][1] in r2i && rows[k][2] in n2i
  }

  /** What the loader returns. */
  datatype Loaded = Loaded(
    n2i: map<string, nat>, i2n: seq<string>,
    r2i: map<string, nat>, i2r: seq<string>,
    train: seq<Triple>, test: seq<Triple>,
    all: set<Triple>)

  /** list(s): the elements of a set, once each, in an order of the
      implementation's choosing. */
  method ListOf(s: set<string>) returns (xs: seq<string>)
    ensures Distinct(xs) && forall x :: x in xs <==> x in s
  {
    xs := [];
    var rest := s;
    while rest != {}
      invariant Distinct(xs)
      invariant forall x :: x in s <==> x in xs || x in rest
      invariant forall x | x in xs :: x !in rest
      decreases |rest|
    {
      var x :| x in rest;
      xs := xs + [x];
      rest := rest - {x};
    }
  }

  /** `{n: i for i, n in enumerate(xs)}`. */
  method Enumerate(xs: seq<string>) returns (m: map<string, nat>)
    requires Distinct(xs)
    ensures m.Keys == set x | x in xs
    ensures forall i | 0 <= i < |xs| :: xs[i] in m && m[xs[i]] == i
  {
    m := map[];
    for i := 0 to |xs|
      invariant m.Keys == set x | x in xs[..i]
      invariant forall j | 0 <= j < i :: xs[j] in m && m[xs[j]] == j
    {
      assert xs[..i + 1] == xs[..i] + [xs[i]];
      m := m[xs[i] := i];
    }
    assert xs[..|xs|] == xs;
  }

  /** The first loop of the loader: collects node and relation names,
      raising ValueError at the first row that does not unpack. */
  method CollectNames(rows: seq<Row>) returns (r: Result<(set<string>, set<string>)>)
    ensures r.Err? <==> !Triples(rows)
    ensures r.Err? ==> r.error == ValueError
    ensures r.Ok? ==> Triples(rows) && r.value == (NodesOf(rows), RelsOf(rows))
  {
    var nodes, rels := {}, {};
    for k := 0 to |rows|
      invariant Triples(rows[..k])
      invariant nodes == NodesOf(rows[..k]) && rels == RelsOf(rows[..k])
    {
      if |rows[k]| != 3 {
        return Err(ValueError);
      }
      assert rows[..k + 1][..k] == rows[..k];
      nodes := nodes + {rows[k][0], rows[k][2]};
      rels := rels + {rows[k][1]};
    }
    assert rows[..|rows|] == rows;
    return Ok((nodes, rels));
  }

  /** `list(names)` and the dictionary enumerating it. */
  method BuildIndex(names: set<string>) returns (i2n: seq<string>, n2i: map<string, nat>)
    ensures IsIndex(i2n, n2i, names)
  {
    i2n := ListOf(names);
    n2i := Enumerate(i2n);
  }

  /** Every name of well-formed rows is indexed. */
  lemma RowsIndexed(rows: seq<Row>, n2i: map<string, nat>, r2i: map<string, nat>)
    requires Triples(rows) && n2i.Keys == NodesOf(rows) && r2i.Keys == RelsOf(rows)
    ensures Indexed(rows, n2i, r2i)
  {
    forall k | 0 <= k < |rows|
      ensures rows[k][0] in n2i && rows[k][1] in r2i && rows[k][2] in n2i
    {
      NamesOfMeaning(rows, rows[k][0]);
      NamesOfMeaning(rows, rows[k][1]);
      NamesOfMeaning(rows, rows[k][2]);
    }
  }

  /** The loop building all_triples. */
  method AllTriples(rows: seq<Row>, n2i: map<string, nat>, r2i: map<string, nat>) returns (all: set<Triple>)
    requires Indexed(rows, n2i, r2i)
    ensures all == set k | 0 <= k < |rows| :: MapRow(rows[k], n2i, r2i)
  {
    all := {};
    for k := 0 to |rows|
      invariant all == set j | 0 <= j < k :: MapRow(rows[j], n2i, r2i)
    {
      all := all + {MapRow(rows[k], n2i, r2i)};
    }
  }

  /** What the loader promises about its result for the selected train
      and test rows: both indexes enumerate the names, every row is mapped
      through them in order, and all_triples holds the mapped rows. */
  ghost predicate Describes(l: Loaded, tr: seq<Row>, te: seq<Row>) {
    var rows := tr + te;
    && Triples(rows)
    && IsIndex(l.i2n, l.n2i, NodesOf(rows))
    && IsIndex(l.i2r, l.r2i, RelsOf(rows))
    && Indexed(rows, l.n2i, l.r2i) && Indexed(tr, l.n2i, l.r2i) && Indexed(te, l.n2i, l.r2i)
    && |l.train| == |tr| && |l.test| == |te|
    && (forall k | 0 <= k < |tr| :: l.train[k] == MapRow(tr[k], l.n2i, l.r2i))
    && (forall k | 0 <= k < |te| :: l.test[k] == MapRow(te[k], l.n2i, l.r2i))
    && l.all == set k | 0 <= k < |rows| :: MapRow(rows[k], l.n2i, l.r2i)
  }

  /** Everything after the selection of rows. */
  method IndexSelected(train: seq<Row>, test: seq<Row>) returns (r: Result<Loaded>)
    ensures r.Err? <==> !Triples(train + test)
    ensures r.Err? ==> r.error == ValueError
    ensures r.Ok? ==> Describes(r.value, train, test)
  {
    var rows := train + test;
    var names := CollectNames(rows);
    if names.Err? {
      return Err(names.error);
    }
    var i2n, n2i := BuildIndex(names.value.0);
    var i2r, r2i := BuildIndex(names.value.1);
    RowsIndexed(rows, n2i, r2i);
    assert forall k | 0 <= k < |train| :: train[k] == rows[k];
    assert forall k | 0 <= k < |test| :: test[k] == rows[|train| + k];
    var all := AllTriples(rows, n2i, r2i);
    var trainIds := seq(|train|, k requires 0 <= k < |train| => MapRow(train[k], n2i, r2i));
    var testIds := seq(|test|, k requires 0 <= k < |test| => MapRow(test[k], n2i, r2i));
    r := Ok(Loaded(n2i, i2n, r2i, i2r, trainIds, testIds, all));
  }

  /** load_link_prediction_data, after the files are read. An unknown
      dataset name raises ValueError before anything is read, and so does a
      selected row that does not unpack into three names. */
  method LoadIndexing(name: string, train0: seq<Row>, val0: seq<Row>, test0: seq<Row>, useTestSet: bool, limit: Option<int>)
    returns (r: Result<Loaded>)
    ensures !KnownDataset(name) ==> r == Err(ValueError)
    ensures KnownDataset(name) ==>
      var (tr, te) := Selected(train0, val0, test0, useTestSet, limit);
      r.Err? <==> !Triples(tr + te)
    ensures r.Err? ==> r.error == ValueError
    ensures r.Ok? ==>
      var (tr, te) := Selected(train0, val0, test0, useTestSet, limit);
      Describes(r.value, tr, te)
  {
    if !KnownDataset(name) {
      return Err(ValueError);
    }
    var train, test := train0, test0;
    if useTestSet {
      train := train + val0;
    } else {
      test := val0;
    }
    if limit.Some? && limit.value != 0 {
      train := Head(train, limit.value);
      test := Head(test, limit.value);
    }
    assert (train, test) == Selected(train0, val0, test0, useTestSet, limit);
    r := IndexSelected(train, test);
  }

  /** Reading a mapped triple back through the lists gives the row's
      names: the ids are a lossless encoding of the selected rows. */
  lemma MappedRowsDecode(rows: seq<Row>, l: Loaded, k: nat)
    requires Triples(rows) && k < |rows|
    requires IsIndex(l.i2n, l.n2i, NodesOf(rows)) && IsIndex(l.i2r, l.r2i, RelsOf(rows))
    requires Indexed(rows, l.n2i, l.r2i)
    ensures var t := MapRow(rows[k], l.n2i, l.r2i);
      && t.s < |l.i2n| && t.p < |l.i2r| && t.o < |l.i2n|
      && l.i2n[t.s] == rows[k][0] && l.i2r[t.p] == rows[k][1] && l.i2n[t.o] == rows[k][2]
  {
    NamesOfMeaning(rows, rows[k][0]);
    NamesOfMeaning(rows, rows[k][1]);
    NamesOfMeaning(rows, rows[k][2]);
    IndexInverse(l.i2n, l.n2i, NodesOf(rows), rows[k][0]);
    IndexInverse(l.i2r, l.r2i, RelsOf(rows), rows[k][1]);
    IndexInverse(l.i2n, l.n2i, NodesOf(rows), rows[k][2]);
  }

  /** Rows with the same names get the same ids and rows that differ get
      different ids: all_triples has one entry per distinct row. */
  lemma MapRowInjective(rows: seq<Row>, l: Loaded, j: nat, k: nat)
    requires Triples(rows) && j < |rows| && k < |rows|
    requires IsIndex(l.i2n, l.n2i, NodesOf(rows)) && IsIndex(l.i2r, l.r2i, RelsOf(rows))
    requires Indexed(rows, l.n2i, l.r2i)
    ensures MapRow(rows[j], l.n2i, l.r2i) == MapRow(rows[k], l.n2i, l.r2i) <==> rows[j] == rows[k]
  {
    var tj, tk := MapRow(rows[j], l.n2i, l.r2i), MapRow(rows[k], l.n2i, l.r2i);
    if tj == tk {
      assert rows[j][0] == rows[k][0] && rows[j][1] == rows[k][1] && rows[j][2] == rows[k][2] by {
        MappedRowsDecode(rows, l, j);
        MappedRowsDecode(rows, l, k);
      }
      RowOfNames(rows[j], rows[k]);
    }
  }

  lemma RowOfNames(a: Row, b: Row)
    requires |a| == 3 && |b| == 3 && a[0] == b[0] && a[1] == b[1] && a[2] == b[2]
    ensures a == b
  {
    assert a == [a[0], a[1], a[2]];
    assert b == [b[0], b[1], b[2]];
  }
}
