/** Filtered link-prediction ranking of lp_utils.py: the true-completion
    dictionaries, triple filtering, the in-place filtering of a score
    matrix, the tie-corrected rank and the MRR / Hits@k metrics of `eval`.
    The model that scores candidate triples is an oracle parameter. */
module Ranking {
  import opened Common

  // ---------------------------------------------------------------------
  // truedicts

  /** The subjects s of the first k triples of `all` with (p, o) as
      predicate and object, in iteration order. */
  function HeadsUpTo(all: seq<Triple>, k: nat, p: nat, o: nat): seq<nat>
    requires k <= |all|
  {
    if k == 0 then []
    else HeadsUpTo(all, k - 1, p, o) + (if all[k - 1].p == p && all[k - 1].o == o then [all[k - 1].s] else [])
  }

  /** The objects o of the first k triples of `all` with (s, p) as subject
      and predicate, in iteration order. */
  function TailsUpTo(all: seq<Triple>, k: nat, s: nat, p: nat): seq<nat>
    requires k <= |all|
  {
    if k == 0 then []
    else TailsUpTo(all, k - 1, s, p) + (if all[k - 1].s == s && all[k - 1].p == p then [all[k - 1].o] else [])
  }

  /** The (predicate, object) pairs of the first k triples. */
  function PredObjKeys(all: seq<Triple>, k: nat): set<(nat, nat)>
    requires k <= |all|
  {
    set m | 0 <= m < k :: (all[m].p, all[m].o)
  }

  /** The (subject, predicate) pairs of the first k triples. */
  function SubjPredKeys(all: seq<Triple>, k: nat): set<(nat, nat)>
    requires k <= |all|
  {
    set m | 0 <= m < k :: (all[m].s, all[m].p)
  }

  /** A listed completion is exactly a subject of a known triple. */
  lemma {:induction false} HeadsUpToMembers(all: seq<Triple>, k: nat, s: nat, p: nat, o: nat)
    requires k <= |all|
    ensures s in HeadsUpTo(all, k, p, o) <==> Triple(s, p, o) in all[..k]
  {
    if k > 0 {
      HeadsUpToMembers(all, k - 1, s, p, o);
      assert all[..k] == all[..k - 1] + [all[k - 1]];
    }
  }

  /** A listed completion is exactly an object of a known triple. */
  lemma {:induction false} TailsUpToMembers(all: seq<Triple>, k: nat, s: nat, p: nat, o: nat)
    requires k <= |all|
    ensures o in TailsUpTo(all, k, s, p) <==> Triple(s, p, o) in all[..k]
  {
    if k > 0 {
      TailsUpToMembers(all, k - 1, s, p, o);
      assert all[..k] == all[..k - 1] + [all[k - 1]];
    }
  }

  datatype TrueDicts = TrueDicts(heads: map<(nat, nat), seq<nat>>, tails: map<(nat, nat), seq<nat>>)

  /** truedicts: both maps get one key per occurring pair, first bound to an
      empty list; then every triple appends its subject to heads[(p, o)]
      and its object to tails[(s, p)]. */
  method BuildTrueDicts(all: seq<Triple>) returns (d: TrueDicts)
    ensures d.heads.Keys == PredObjKeys(all, |all|)
    ensures d.tails.Keys == SubjPredKeys(all, |all|)
    ensures forall key | key in d.heads :: d.heads[key] == HeadsUpTo(all, |all|, key.0, key.1)
    ensures forall key | key in d.tails :: d.tails[key] == TailsUpTo(all, |all|, key.0, key.1)
  {
    var heads, tails := EmptyCompletions(all);
    heads, tails := AppendCompletions(all, heads, tails);
    d := TrueDicts(heads, tails);
  }

  /** The dictionary comprehensions of truedicts: one empty list per
      occurring pair. */
  method EmptyCompletions(all: seq<Triple>) returns (heads: map<(nat, nat), seq<nat>>, tails: map<(nat, nat), seq<nat>>)
    ensures heads.Keys == PredObjKeys(all, |all|) && tails.Keys == SubjPredKeys(all, |all|)
    ensures HeadsListed(all, 0, heads) && TailsListed(all, 0, tails)
  {
    heads, tails := map[], map[];
    for k := 0 to |all|
      invariant heads.Keys == PredObjKeys(all, k) && tails.Keys == SubjPredKeys(all, k)
      invariant forall key | key in heads :: heads[key] == []
      invariant forall key | key in tails :: tails[key] == []
    {
      KeysStep(all, k);
      heads := heads[(all[k].p, all[k].o) := []];
      tails := tails[(all[k].s, all[k].p) := []];
    }
  }

  /** Every list of a heads map holds the completions of the first k
      triples. */
  ghost predicate HeadsListed(all: seq<Triple>, k: nat, m: map<(nat, nat), seq<nat>>)
    requires k <= |all|
  {
    forall key | key in m :: m[key] == HeadsUpTo(all, k, key.0, key.1)
  }

  /** Every list of a tails map holds the completions of the first k
      triples. */
  ghost predicate TailsListed(all: seq<Triple>, k: nat, m: map<(nat, nat), seq<nat>>)
    requires k <= |all|
  {
    forall key | key in m :: m[key] == TailsUpTo(all, k, key.0, key.1)
  }

  /** The loop of truedicts: every triple appends its subject to
      heads[(p, o)] and its object to tails[(s, p)]. */
  method AppendCompletions(all: seq<Triple>, heads0: map<(nat, nat), seq<nat>>, tails0: map<(nat, nat), seq<nat>>)
    returns (heads: map<(nat, nat), seq<nat>>, tails: map<(nat, nat), seq<nat>>)
    requires heads0.Keys == PredObjKeys(all, |all|) && tails0.Keys == SubjPredKeys(all, |all|)
    requires HeadsListed(all, 0, heads0) && TailsListed(all, 0, tails0)
    ensures heads.Keys == heads0.Keys && tails.Keys == tails0.Keys
    ensures HeadsListed(all, |all|, heads) && TailsListed(all, |all|, tails)
  {
    heads, tails := heads0, tails0;
    for k := 0 to |all|
      invariant heads.Keys == PredObjKeys(all, |all|) && tails.Keys == SubjPredKeys(all, |all|)
      invariant HeadsListed(all, k, heads) && TailsListed(all, k, tails)
    {
      heads, tails := AppendTriple(all, k, heads, tails);
    }
  }

  /** One iteration of the truedicts loop, for triple k. */
  method AppendTriple(all: seq<Triple>, k: nat, heads0: map<(nat, nat), seq<nat>>, tails0: map<(nat, nat), seq<nat>>)
    returns (heads: map<(nat, nat), seq<nat>>, tails: map<(nat, nat), seq<nat>>)
    requires k < |all|
    requires heads0.Keys == PredObjKeys(all, |all|) && tails0.Keys == SubjPredKeys(all, |all|)
    requires HeadsListed(all, k, heads0) && TailsListed(all, k, tails0)
    ensures heads.Keys == heads0.Keys && tails.Keys == tails0.Keys
    ensures HeadsListed(all, k + 1, heads) && TailsListed(all, k + 1, tails)
  {
    var t := all[k];
    assert (t.p, t.o) in PredObjKeys(all, |all|) && (t.s, t.p) in SubjPredKeys(all, |all|);
    HeadsStep(all, k, heads0);
    TailsStep(all, k, tails0);
    heads := heads0[(t.p, t.o) := heads0[(t.p, t.o)] + [t.s]];
    tails := tails0[(t.s, t.p) := tails0[(t.s, t.p)] + [t.o]];
  }

  /** Appending triple k's subject under its (p, o) key extends the heads
      lists from k triples to k + 1. */
  lemma HeadsStep(all: seq<Triple>, k: nat, m: map<(nat, nat), seq<nat>>)
    requires k < |all| && (all[k].p, all[k].o) in m
    requires HeadsListed(all, k, m)
    ensures HeadsListed(all, k + 1, m[(all[k].p, all[k].o) := m[(all[k].p, all[k].o)] + [all[k].s]])
  {
    var t := all[k];
    var m' := m[(t.p, t.o) := m[(t.p, t.o)] + [t.s]];
    forall key | key in m' ensures m'[key] == HeadsUpTo(all, k + 1, key.0, key.1) {
      assert m[key] == HeadsUpTo(all, k, key.0, key.1);
    }
  }

  /** Appending triple k's object under its (s, p) key extends the tails
      lists from k triples to k + 1. */
  lemma TailsStep(all: seq<Triple>, k: nat, m: map<(nat, nat), seq<nat>>)
    requires k < |all| && (all[k].s, all[k].p) in m
    requires TailsListed(all, k, m)
    ensures TailsListed(all, k + 1, m[(all[k].s, all[k].p) := m[(all[k].s, all[k].p)] + [all[k].o]])
  {
    var t := all[k];
    var m' := m[(t.s, t.p) := m[(t.s, t.p)] + [t.o]];
    forall key | key in m' ensures m'[key] == TailsUpTo(all, k + 1, key.0, key.1) {
      assert m[key] == TailsUpTo(all, k, key.0, key.1);
    }
  }

  /** One more triple adds its two pairs to the key sets. */
  lemma KeysStep(all: seq<Triple>, k: nat)
    requires k < |all|
    ensures PredObjKeys(all, k + 1) == PredObjKeys(all, k) + {(all[k].p, all[k].o)}
    ensures SubjPredKeys(all, k + 1) == SubjPredKeys(all, k) + {(all[k].s, all[k].p)}
  {
  }

  /** What the dictionaries promise: s is listed under (p, o) iff (s, p, o)
      is known, o is listed under (s, p) iff (s, p, o) is known, and a key
      is present iff some known triple has that pair. */
  lemma TrueDictsMeaning(all: seq<Triple>, d: TrueDicts, s: nat, p: nat, o: nat)
    requires d.heads.Keys == PredObjKeys(all, |all|)
    requires d.tails.Keys == SubjPredKeys(all, |all|)
    requires forall key | key in d.heads :: d.heads[key] == HeadsUpTo(all, |all|, key.0, key.1)
    requires forall key | key in d.tails :: d.tails[key] == TailsUpTo(all, |all|, key.0, key.1)
    ensures ((p, o) in d.heads && s in d.heads[(p, o)]) <==> Triple(s, p, o) in all
    ensures ((s, p) in d.tails && o in d.tails[(s, p)]) <==> Triple(s, p, o) in all
    ensures (p, o) in d.heads <==> exists t | t in all :: t.p == p && t.o == o
    ensures (s, p) in d.tails <==> exists t | t in all :: t.s == s && t.p == p
  {
    HeadsUpToMembers(all, |all|, s, p, o);
    TailsUpToMembers(all, |all|, s, p, o);
    assert all[..|all|] == all;
    if Triple(s, p, o) in all {
      var m :| 0 <= m < |all| && all[m] == Triple(s, p, o);
      assert (p, o) in PredObjKeys(all, |all|);
      assert (s, p) in SubjPredKeys(all, |all|);
    }
    if (p, o) in d.heads {
      var m :| 0 <= m < |all| && (all[m].p, all[m].o) == (p, o);
      assert all[m] in all;
    }
    if exists t | t in all :: t.p == p && t.o == o {
      var t :| t in all && t.p == p && t.o == o;
      var m :| 0 <= m < |all| && all[m] == t;
      assert (p, o) in PredObjKeys(all, |all|);
    }
    if (s, p) in d.tails {
      var m :| 0 <= m < |all| && (all[m].s, all[m].p) == (s, p);
      assert all[m] in all;
    }
    if exists t | t in all :: t.s == s && t.p == p {
      var t :| t in all && t.s == s && t.p == p;
      var m :| 0 <= m < |all| && all[m] == t;
      assert (s, p) in SubjPredKeys(all, |all|);
    }
  }

  // ---------------------------------------------------------------------
  // filter

  /** The first k raw triples that are the true triple or are not known. */
  function KeptUpTo(raw: seq<Triple>, k: nat, all: set<Triple>, target: Triple): seq<Triple>
    requires k <= |raw|
  {
    if k == 0 then []
    else KeptUpTo(raw, k - 1, all, target) + (if raw[k - 1] == target || raw[k - 1] !in all then [raw[k - 1]] else [])
  }

  /** filter: keeps, in order, the raw triples equal to `target` or unknown. */
  method FilterTriples(raw: seq<Triple>, all: set<Triple>, target: Triple) returns (filtered: seq<Triple>)
    ensures filtered == KeptUpTo(raw, |raw|, all, target)
  {
    filtered := [];
    for k := 0 to |raw|
      invariant filtered == KeptUpTo(raw, k, all, target)
    {
      if raw[k] == target || raw[k] !in all {
        filtered := filtered + [raw[k]];
      }
    }
  }

  /** A triple survives filtering iff it is raw and either the target or
      unknown; the result is never longer than the input. */
  lemma {:induction false} KeptMeaning(raw: seq<Triple>, k: nat, all: set<Triple>, target: Triple, x: Triple)
    requires k <= |raw|
    ensures |KeptUpTo(raw, k, all, target)| <= k
    ensures x in KeptUpTo(raw, k, all, target) <==> x in raw[..k] && (x == target || x !in all)
  {
    if k > 0 {
      KeptMeaning(raw, k - 1, all, target, x);
      assert raw[..k] == raw[..k - 1] + [raw[k - 1]];
    }
  }

  // ---------------------------------------------------------------------
  // Scores and filter_scores_

  /** A candidate's score: an integer, or the -inf written by filtering. */
  datatype Score = Fin(v: int) | NegInf

  /** Strict "scores higher than". */
  predicate Greater(a: Score, b: Score) {
    match (a, b)
    case (Fin(x), Fin(y)) => x > y
    case (Fin(_), NegInf) => true
    case (NegInf, _) => false
  }

  /** The dictionary key of a triple's base: (p, o) when predicting heads,
      (s, p) when predicting tails. */
  function BaseKey(t: Triple, head: bool): (nat, nat) {
    if head then (t.p, t.o) else (t.s, t.p)
  }

  /** The element being predicted. */
  function TargetOf(t: Triple, head: bool): nat {
    if head then t.s else t.o
  }

  predicate KeysPresent(batch: seq<Triple>, d: TrueDicts, head: bool) {
    forall i | 0 <= i < |batch| ::
      BaseKey(batch[i], head) in (if head then d.heads else d.tails)
  }

  /** The known completions of a triple's base. */
  function Completions(t: Triple, d: TrueDicts, head: bool): seq<nat>
    requires BaseKey(t, head) in (if head then d.heads else d.tails)
  {
    if head then d.heads[BaseKey(t, head)] else d.tails[BaseKey(t, head)]
  }

  /** One row after filtering: known completions other than the target
      become -inf, everything else is kept. */
  function FilteredRow(row: seq<Score>, t: Triple, d: TrueDicts, head: bool): (r: seq<Score>)
    requires BaseKey(t, head) in (if head then d.heads else d.tails)
    ensures |r| == |row|
  {
    seq(|row|, c requires 0 <= c < |row| =>
      if c in Completions(t, d, head) && c != TargetOf(t, head) then NegInf else row[c])
  }

  /** The filtering rule as the evaluator needs it: the target keeps its
      score, every other known completion is -inf, unknown candidates keep
      theirs; and filtering twice is filtering once. */
  lemma FilteredRowMeaning(row: seq<Score>, t: Triple, d: TrueDicts, head: bool)
    requires BaseKey(t, head) in (if head then d.heads else d.tails)
    ensures TargetOf(t, head) < |row| ==> FilteredRow(row, t, d, head)[TargetOf(t, head)] == row[TargetOf(t, head)]
    ensures forall c | 0 <= c < |row| && c in Completions(t, d, head) && c != TargetOf(t, head) ::
      FilteredRow(row, t, d, head)[c] == NegInf
    ensures forall c | 0 <= c < |row| && c !in Completions(t, d, head) :: FilteredRow(row, t, d, head)[c] == row[c]
    ensures FilteredRow(FilteredRow(row, t, d, head), t, d, head) == FilteredRow(row, t, d, head)
  {
  }

  /** Row i of a score matrix. */
  function RowOf(scores: array2<Score>, i: nat): (r: seq<Score>)
    reads scores
    requires i < scores.Length0
    ensures |r| == scores.Length1 && forall c | 0 <= c < scores.Length1 :: r[c] == scores[i, c]
  {
    seq(scores.Length1, c requires 0 <= c < scores.Length1 reads scores => scores[i, c])
  }

  /** Every known non-target completion of the batch indexes a score
      column. */
  predicate CompletionsBounded(batch: seq<Triple>, d: TrueDicts, head: bool, n: nat)
    requires KeysPresent(batch, d, head)
  {
    forall i, c | 0 <= i < |batch| && c in Completions(batch[i], d, head) && c != TargetOf(batch[i], head) :: c < n
  }

  /** The (row, candidate) pairs filter_scores_ collects: for every row i,
      each known completion of its base other than its target. */
  ghost predicate Collected(batch: seq<Triple>, d: TrueDicts, head: bool, indices: seq<(nat, nat)>)
    requires KeysPresent(batch, d, head)
  {
    && (forall ic | ic in indices :: ic.0 < |batch|)
    && forall i, c | 0 <= i < |batch| ::
      (i, c) in indices <==> c in Completions(batch[i], d, head) && c != TargetOf(batch[i], head)
  }

  /** The pairs (i, c) for the completions c of row i other than its target. */
  function RowPairs(i: nat, comps: seq<nat>, target: nat): seq<(nat, nat)> {
    if comps == [] then []
    else
      var last := comps[|comps| - 1];
      RowPairs(i, comps[..|comps| - 1], target) + (if last != target then [(i, last)] else [])
  }

  lemma {:induction false} RowPairsMembers(i: nat, comps: seq<nat>, target: nat, ic: (nat, nat))
    ensures ic in RowPairs(i, comps, target) <==> ic.0 == i && ic.1 in comps && ic.1 != target
  {
    if comps != [] {
      RowPairsMembers(i, comps[..|comps| - 1], target, ic);
      assert comps == comps[..|comps| - 1] + [comps[|comps| - 1]];
    }
  }

  /** The pairs collected from the first k rows. */
  function PairsUpTo(batch: seq<Triple>, d: TrueDicts, head: bool, k: nat): seq<(nat, nat)>
    requires k <= |batch| && KeysPresent(batch[..k], d, head)
  {
    if k == 0 then []
    else
      assert batch[..k - 1] == batch[..k][..k - 1];
      assert batch[k - 1] == batch[..k][k - 1];
      PairsUpTo(batch, d, head, k - 1)
        + RowPairs(k - 1, Completions(batch[k - 1], d, head), TargetOf(batch[k - 1], head))
  }

  lemma {:induction false} PairsUpToMembers(batch: seq<Triple>, d: TrueDicts, head: bool, k: nat, ic: (nat, nat))
    requires k <= |batch| && KeysPresent(batch[..k], d, head)
    ensures ic in PairsUpTo(batch, d, head, k) <==>
      ic.0 < k && BaseKey(batch[ic.0], head) in (if head then d.heads else d.tails)
      && ic.1 in Completions(batch[ic.0], d, head) && ic.1 != TargetOf(batch[ic.0], head)
  {
    if k > 0 {
      assert batch[..k - 1] == batch[..k][..k - 1];
      assert batch[k - 1] == batch[..k][k - 1];
      PairsUpToMembers(batch, d, head, k - 1, ic);
      RowPairsMembers(k - 1, Completions(batch[k - 1], d, head), TargetOf(batch[k - 1], head), ic);
      if ic.0 < k - 1 {
        assert batch[ic.0] == batch[..k - 1][ic.0];
      }
    }
  }

  /** The pairs of one row, collected in dictionary order. */
  method CollectRow(i: nat, comps: seq<nat>, target: nat) returns (rowPairs: seq<(nat, nat)>)
    ensures rowPairs == RowPairs(i, comps, target)
  {
    rowPairs := [];
    for k := 0 to |comps|
      invariant rowPairs == RowPairs(i, comps[..k], target)
    {
      assert comps[..k + 1][..k] == comps[..k];
      if comps[k] != target {
        rowPairs := rowPairs + [(i, comps[k])];
      }
    }
    assert comps[..|comps|] == comps;
  }

  /** The collecting loop of filter_scores_, which raises KeyError at the
      first row whose base pair is not a dictionary key. */
  method CollectIndices(batch: seq<Triple>, d: TrueDicts, head: bool) returns (r: Result<seq<(nat, nat)>>)
    ensures r.Err? <==> !KeysPresent(batch, d, head)
    ensures r.Err? ==> r.error == KeyError
    ensures r.Ok? ==> Collected(batch, d, head, r.value)
  {
    var indices: seq<(nat, nat)> := [];
    for i := 0 to |batch|
      invariant KeysPresent(batch[..i], d, head)
      invariant indices == PairsUpTo(batch, d, head, i)
    {
      var t := batch[i];
      var dict := if head then d.heads else d.tails;
      if BaseKey(t, head) !in dict {
        return Err(KeyError);
      }
      var comps := dict[BaseKey(t, head)];
      var rowPairs := CollectRow(i, comps, TargetOf(t, head));
      assert KeysPresent(batch[..i + 1], d, head) by {
        assert forall j | 0 <= j < i :: batch[..i + 1][j] == batch[..i][j];
      }
      indices := indices + rowPairs;
    }
    assert batch[..|batch|] == batch;
    forall ic
      ensures ic in indices <==>
        ic.0 < |batch| && ic.1 in Completions(batch[ic.0], d, head) && ic.1 != TargetOf(batch[ic.0], head)
    {
      PairsUpToMembers(batch, d, head, |batch|, ic);
    }
    r := Ok(indices);
  }

  /** filter_scores_: collects the (row, candidate) pairs of every known
      non-target completion, raising KeyError if a base pair is absent; the
      tensor write then raises IndexError if a pair lies outside the matrix.
      Either way no score is touched. Otherwise -inf is written at every
      collected pair. */
  method FilterScores(scores: array2<Score>, batch: seq<Triple>, d: TrueDicts, head: bool) returns (r: Outcome)
    requires scores.Length0 == |batch|
    modifies scores
    ensures r == Fail(KeyError) <==> !KeysPresent(batch, d, head)
    ensures r == Fail(IndexError) <==>
      KeysPresent(batch, d, head) && !CompletionsBounded(batch, d, head, scores.Length1)
    ensures r == Pass || r == Fail(KeyError) || r == Fail(IndexError)
    ensures r.Fail? ==> unchanged(scores)
    ensures r == Pass ==> forall i | 0 <= i < |batch| ::
      RowOf(scores, i) == FilteredRow(old(RowOf(scores, i)), batch[i], d, head)
  {
    var collected := CollectIndices(batch, d, head);
    if collected.Err? {
      return Fail(KeyError);
    }
    var indices := collected.value;
    for k := 0 to |indices|
      invariant forall k' | 0 <= k' < k :: indices[k'].1 < scores.Length1
    {
      if indices[k].1 >= scores.Length1 {
        assert indices[k] in indices;
        return Fail(IndexError);
      }
    }
    assert CompletionsBounded(batch, d, head, scores.Length1) by {
      forall i, c | 0 <= i < |batch| && c in Completions(batch[i], d, head) && c != TargetOf(batch[i], head)
        ensures c < scores.Length1
      {
        assert (i, c) in indices;
      }
    }
    WriteNegInf(scores, indices);
    forall i | 0 <= i < |batch|
      ensures RowOf(scores, i) == FilteredRow(old(RowOf(scores, i)), batch[i], d, head)
    {
      WrittenRow(old(RowOf(scores, i)), RowOf(scores, i), batch, d, head, indices, i);
    }
    r := Pass;
  }

  /** A row after the -inf write at the collected pairs is the filtered row. */
  lemma WrittenRow(before: seq<Score>, after: seq<Score>, batch: seq<Triple>, d: TrueDicts, head: bool,
                   indices: seq<(nat, nat)>, i: nat)
    requires KeysPresent(batch, d, head) && Collected(batch, d, head, indices) && i < |batch|
    requires |after| == |before|
    requires forall c | 0 <= c < |before| :: after[c] == if (i, c) in indices then NegInf else before[c]
    ensures after == FilteredRow(before, batch[i], d, head)
  {
  }

  /** The tensor write `scores[indices[:, 0], indices[:, 1]] = -inf`. */
  method WriteNegInf(scores: array2<Score>, indices: seq<(nat, nat)>)
    requires forall ic | ic in indices :: ic.0 < scores.Length0 && ic.1 < scores.Length1
    modifies scores
    ensures forall i, c | 0 <= i < scores.Length0 && 0 <= c < scores.Length1 ::
      scores[i, c] == if (i, c) in indices then NegInf else old(scores[i, c])
  {
    for k := 0 to |indices|
      invariant forall i, c | 0 <= i < scores.Length0 && 0 <= c < scores.Length1 ::
        scores[i, c] == if (i, c) in indices[..k] then NegInf else old(scores[i, c])
    {
      assert indices[..k + 1] == indices[..k] + [indices[k]];
      scores[indices[k].0, indices[k].1] := NegInf;
    }
    assert indices[..|indices|] == indices;
  }

  // ---------------------------------------------------------------------
  // Rank with tie correction

  /** How many of the first k scores are strictly higher than x. */
  function CountAbove(row: seq<Score>, k: nat, x: Score): nat
    requires k <= |row|
  {
    if k == 0 then 0 else CountAbove(row, k - 1, x) + (if Greater(row[k - 1], x) then 1 else 0)
  }

  /** How many of the first k scores equal x. */
  function CountTies(row: seq<Score>, k: nat, x: Score): nat
    requires k <= |row|
  {
    if k == 0 then 0 else CountTies(row, k - 1, x) + (if row[k - 1] == x then 1 else 0)
  }

  lemma {:induction false} CountsBounded(row: seq<Score>, k: nat, x: Score)
    requires k <= |row|
    ensures CountAbove(row, k, x) + CountTies(row, k, x) <= k
  {
    if k > 0 {
      CountsBounded(row, k - 1, x);
    }
  }

  lemma {:induction false} TiesCountSelf(row: seq<Score>, k: nat, target: nat)
    requires target < k <= |row|
    ensures CountTies(row, k, row[target]) >= 1
  {
    if k - 1 != target {
      TiesCountSelf(row, k - 1, target);
    }
  }

  /** The rank of the target in a row: 1 + the number of strictly better
      candidates + half (rounded down) of the other candidates tied with it. */
  function Rank(row: seq<Score>, target: nat): (r: nat)
    requires target < |row|
    ensures 1 <= r <= |row|
  {
    var x := row[target];
    CountsBounded(row, |row|, x);
    TiesCountSelf(row, |row|, target);
    CountAbove(row, |row|, x) + (CountTies(row, |row|, x) - 1) / 2 + 1
  }

  /** Only the position of the target among better and tied candidates
      matters: a target strictly above every other candidate ranks first. */
  lemma {:induction false} StrictlyBestRanksFirst(row: seq<Score>, target: nat, k: nat)
    requires target < |row| && k <= |row|
    requires forall c | 0 <= c < |row| && c != target :: Greater(row[target], row[c])
    ensures CountAbove(row, k, row[target]) == 0
    ensures CountTies(row, k, row[target]) == if target < k then 1 else 0
    ensures k == |row| ==> Rank(row, target) == 1
  {
    if k > 0 {
      StrictlyBestRanksFirst(row, target, k - 1);
      if k - 1 != target {
        assert Greater(row[target], row[k - 1]);
      }
    }
  }

  lemma {:induction false} CountAboveMono(a: seq<Score>, b: seq<Score>, k: nat, x: Score)
    requires k <= |a| == |b|
    requires forall c | 0 <= c < |a| :: Greater(a[c], x) ==> Greater(b[c], x)
    ensures CountAbove(a, k, x) <= CountAbove(b, k, x)
  {
    if k > 0 {
      CountAboveMono(a, b, k - 1, x);
    }
  }

  lemma {:induction false} CountTiesMono(a: seq<Score>, b: seq<Score>, k: nat, x: Score)
    requires k <= |a| == |b|
    requires forall c | 0 <= c < |a| :: a[c] == x ==> b[c] == x
    ensures CountTies(a, k, x) <= CountTies(b, k, x)
  {
    if k > 0 {
      CountTiesMono(a, b, k - 1, x);
    }
  }

  /** Filtering never worsens the rank of a target whose own score is
      finite: it only lowers other candidates to -inf. */
  lemma FilteringNeverWorsensRank(row: seq<Score>, t: Triple, d: TrueDicts, head: bool)
    requires BaseKey(t, head) in (if head then d.heads else d.tails)
    requires TargetOf(t, head) < |row| && row[TargetOf(t, head)].Fin?
    ensures Rank(FilteredRow(row, t, d, head), TargetOf(t, head)) <= Rank(row, TargetOf(t, head))
  {
    var f := FilteredRow(row, t, d, head);
    var x := row[TargetOf(t, head)];
    assert f[TargetOf(t, head)] == x;
    CountAboveMono(f, row, |row|, x);
    CountTiesMono(f, row, |row|, x);
  }

  /** The example of a tie block: two strictly better candidates and the
      target tied with two others give rank 2 + (3 - 1) / 2 + 1 = 4. */
  lemma TieExample()
    ensures Rank([Fin(9), Fin(8), Fin(5), Fin(5), Fin(5), Fin(1)], 3) == 4
  {
    var row := [Fin(9), Fin(8), Fin(5), Fin(5), Fin(5), Fin(1)];
    assert CountAbove(row, 6, Fin(5)) == 2;
    assert CountTies(row, 6, Fin(5)) == 3;
  }

  // ---------------------------------------------------------------------
  // MRR and Hits@k

  function SumRecip(ranks: seq<nat>): (s: real)
    requires forall k | 0 <= k < |ranks| :: ranks[k] >= 1
    ensures 0.0 <= s <= |ranks| as real
    ensures ranks != [] ==> s > 0.0
  {
    if ranks == [] then 0.0
    else
      var last := ranks[|ranks| - 1] as real;
      RecipUnit(last);
      SumRecip(ranks[..|ranks| - 1]) + 1.0 / last
  }

  lemma RecipUnit(x: real)
    requires x >= 1.0
    ensures 0.0 < 1.0 / x <= 1.0
  {
  }

  function CountWithin(ranks: seq<nat>, k: int): (c: nat)
    ensures c <= |ranks|
  {
    if ranks == [] then 0
    else CountWithin(ranks[..|ranks| - 1], k) + (if ranks[|ranks| - 1] <= k then 1 else 0)
  }

  /** Mean reciprocal rank. */
  function MRR(ranks: seq<nat>): real
    requires ranks != [] && forall k | 0 <= k < |ranks| :: ranks[k] >= 1
  {
    SumRecip(ranks) / (|ranks| as real)
  }

  /** The fraction of ranks at most k. */
  function HitsAt(ranks: seq<nat>, k: int): real
    requires ranks != []
  {
    (CountWithin(ranks, k) as real) / (|ranks| as real)
  }

  lemma {:induction false} CountWithinMono(ranks: seq<nat>, k1: int, k2: int)
    requires k1 <= k2
    ensures CountWithin(ranks, k1) <= CountWithin(ranks, k2)
  {
    if ranks != [] {
      CountWithinMono(ranks[..|ranks| - 1], k1, k2);
    }
  }

  /** Hits@k is a fraction in [0, 1] that grows with k. */
  lemma HitsAtBoundsAndMono(ranks: seq<nat>, k1: int, k2: int)
    requires ranks != [] && k1 <= k2
    ensures 0.0 <= HitsAt(ranks, k1) <= 1.0
    ensures HitsAt(ranks, k1) <= HitsAt(ranks, k2)
  {
    CountWithinMono(ranks, k1, k2);
    var n := |ranks| as real;
    var c1, c2 := CountWithin(ranks, k1) as real, CountWithin(ranks, k2) as real;
    FractionOrder(c1, c2, n);
    assert HitsAt(ranks, k1) == c1 / n && HitsAt(ranks, k2) == c2 / n;
  }

  /** Dividing by a positive total keeps order and maps [0, n] into [0, 1]. */
  lemma FractionOrder(a: real, b: real, n: real)
    requires 0.0 <= a <= b <= n && n > 0.0
    ensures 0.0 <= a / n <= b / n <= 1.0
  {
    DivMono(0.0, a, n);
    DivMono(a, b, n);
    DivMono(b, n, n);
    assert n / n == 1.0;
  }

  lemma {:induction false} Hits1BelowRecip(ranks: seq<nat>)
    requires forall k | 0 <= k < |ranks| :: ranks[k] >= 1
    ensures CountWithin(ranks, 1) as real <= SumRecip(ranks)
  {
    if ranks != [] {
      Hits1BelowRecip(ranks[..|ranks| - 1]);
    }
  }

  /** MRR lies in (0, 1] and is never below Hits@1. */
  lemma MRRBounds(ranks: seq<nat>)
    requires ranks != [] && forall k | 0 <= k < |ranks| :: ranks[k] >= 1
    ensures 0.0 < MRR(ranks) <= 1.0
    ensures HitsAt(ranks, 1) <= MRR(ranks)
  {
    Hits1BelowRecip(ranks);
    var n, total, c := |ranks| as real, SumRecip(ranks), CountWithin(ranks, 1) as real;
    FractionOrder(c, total, n);
    DivPos(total, n);
    assert MRR(ranks) == total / n && HitsAt(ranks, 1) == c / n;
  }

  lemma DivPos(a: real, n: real)
    requires a > 0.0 && n > 0.0
    ensures a / n > 0.0
  {
  }

  lemma DivMono(a: real, b: real, n: real)
    requires n > 0.0 && a <= b
    ensures a / n <= b / n
  {
  }

  /** When every target ranks first, MRR and every Hits@k with k >= 1 are 1. */
  lemma {:induction false} AllFirstIsPerfect(ranks: seq<nat>, k: int)
    requires ranks != [] && forall i | 0 <= i < |ranks| :: ranks[i] == 1
    requires k >= 1
    ensures MRR(ranks) == 1.0 && HitsAt(ranks, k) == 1.0
  {
    AllFirstSums(ranks, k);
  }

  lemma {:induction false} AllFirstSums(ranks: seq<nat>, k: int)
    requires forall i | 0 <= i < |ranks| :: ranks[i] == 1
    requires k >= 1
    ensures SumRecip(ranks) == |ranks| as real && CountWithin(ranks, k) == |ranks|
  {
    if ranks != [] {
      AllFirstSums(ranks[..|ranks| - 1], k);
    }
  }

  // ---------------------------------------------------------------------
  // eval

  /** The candidate triple for completion c: (c, p, o) for head prediction,
      (s, p, c) for tail prediction. */
  function Candidate(t: Triple, c: nat, head: bool): Triple {
    if head then Triple(c, t.p, t.o) else Triple(t.s, t.p, c)
  }

  /** The oracle's scores of all n candidates of a triple. */
  function CandidateRow(t: Triple, n: nat, head: bool, score: Triple -> Score): (r: seq<Score>)
    ensures |r| == n
  {
    seq(n, c requires 0 <= c < n => score(Candidate(t, c, head)))
  }

  /** The filtered rank of a triple's own completion. */
  function TargetRank(t: Triple, n: nat, d: TrueDicts, head: bool, score: Triple -> Score): (r: nat)
    requires BaseKey(t, head) in (if head then d.heads else d.tails)
    requires TargetOf(t, head) < n
    ensures 1 <= r <= n
  {
    Rank(FilteredRow(CandidateRow(t, n, head, score), t, d, head), TargetOf(t, head))
  }

  datatype Metrics = Metrics(mrr: real, hits: seq<real>, ranks: seq<nat>)

  /** Every target of the batch indexes a score column. */
  predicate TargetsBounded(batch: seq<Triple>, n: nat) {
    forall i | 0 <= i < |batch| :: batch[i].o < n
  }

  /** A validation set whose tail ranks can all be computed: every base
      pair is known, and every completion and target indexes a column. */
  predicate Rankable(valset: seq<Triple>, d: TrueDicts, n: nat) {
    && KeysPresent(valset, d, false)
    && CompletionsBounded(valset, d, false, n)
    && TargetsBounded(valset, n)
  }

  /** The ranks the evaluator must produce for a validation set. */
  function ExpectedRanks(valset: seq<Triple>, n: nat, d: TrueDicts, score: Triple -> Score): (ranks: seq<nat>)
    requires Rankable(valset, d, n)
    ensures |ranks| == |valset| && forall i | 0 <= i < |ranks| :: 1 <= ranks[i] <= n
  {
    seq(|valset|, i requires 0 <= i < |valset| => TargetRank(valset[i], n, d, false, score))
  }

  /** The exception one batch of `eval` raises, if any: with no rows or no
      candidates a score list is empty and `torch.cat` raises RuntimeError;
      a batch of one row, or a single candidate, is squeezed to the wrong
      shape (AssertionError); an absent base pair raises KeyError; a
      completion or target outside the candidates raises IndexError. */
  function BatchError(batch: seq<Triple>, d: TrueDicts, n: nat): (e: Option<Error>)
    ensures e == None <==> |batch| > 1 && n > 1 && Rankable(batch, d, n)
    ensures e == Some(RuntimeError) <==> |batch| == 0 || n == 0
  {
    if |batch| == 0 || n == 0 then Some(RuntimeError)
    else if |batch| == 1 || n == 1 then Some(AssertionError)
    else if !KeysPresent(batch, d, false) then Some(KeyError)
    else if !CompletionsBounded(batch, d, false, n) || !TargetsBounded(batch, n) then Some(IndexError)
    else None
  }

  /** The exception raised by the first failing batch of `eval` from offset
      `fr` on, if any. */
  function FirstBatchError(valset: seq<Triple>, d: TrueDicts, n: nat, bs: nat, fr: nat): Option<Error>
    requires bs > 0 && fr <= |valset|
    decreases |valset| - fr
  {
    if fr == |valset| then None
    else
      var to := Min(fr + bs, |valset|);
      if BatchError(valset[fr..to], d, n).Some? then BatchError(valset[fr..to], d, n)
      else FirstBatchError(valset, d, n, bs, to)
  }

  lemma RankableSplit(valset: seq<Triple>, d: TrueDicts, n: nat, fr: nat, to: nat)
    requires fr <= to <= |valset|
    ensures Rankable(valset[fr..], d, n) <==> Rankable(valset[fr..to], d, n) && Rankable(valset[to..], d, n)
  {
    var all, a, b := valset[fr..], valset[fr..to], valset[to..];
    assert forall i | 0 <= i < |a| :: a[i] == all[i];
    assert forall i | 0 <= i < |b| :: b[i] == all[i + (to - fr)];
    if Rankable(a, d, n) && Rankable(b, d, n) {
      forall i | 0 <= i < |all| ensures BaseKey(all[i], false) in d.tails && all[i].o < n {
        if i >= to - fr { assert all[i] == b[i - (to - fr)]; } else { assert all[i] == a[i]; }
      }
      forall i, c | 0 <= i < |all| && c in Completions(all[i], d, false) && c != TargetOf(all[i], false)
        ensures c < n
      {
        if i >= to - fr { assert all[i] == b[i - (to - fr)]; } else { assert all[i] == a[i]; }
      }
    }
  }

  lemma MulAtLeast(a: int, m: int)
    requires a >= 1 && m > 0
    ensures a * m >= m
  {
  }

  lemma ModUnique(x: int, m: int, q: int, r: int)
    requires m > 0 && 0 <= r < m && x == q * m + r
    ensures x % m == r
  {
    var q', r' := x / m, x % m;
    assert x == q' * m + r';
    var dq := q - q';
    assert dq * m == r' - r by {
      assert q * m - q' * m == (q - q') * m;
    }
    if dq >= 1 {
      MulAtLeast(dq, m);
    } else if dq <= -1 {
      MulAtLeast(-dq, m);
    }
  }

  lemma ModStep(len: nat, bs: nat)
    requires 0 < bs < len
    ensures (len - bs) % bs == len % bs
  {
    var q, r := (len - bs) / bs, (len - bs) % bs;
    assert len - bs == q * bs + r;
    assert len == (q + 1) * bs + r;
    ModUnique(len, bs, q + 1, r);
  }

  lemma ModLast(len: nat, bs: nat)
    requires 1 < bs && 0 < len <= bs
    ensures len % bs != 1 <==> len != 1
  {
    if len == bs {
      assert len % bs == 0;
    } else {
      assert len % bs == len;
    }
  }

  /** When `eval` gets through every batch: exactly when the rest of the
      set is rankable, and, unless it is empty, there is more than one
      candidate and no batch of a single row, i.e. neither the batch size
      nor the remainder of the set length modulo it is 1. */
  lemma {:induction false} FirstBatchErrorMeaning(valset: seq<Triple>, d: TrueDicts, n: nat, bs: nat, fr: nat)
    requires bs > 0 && fr <= |valset|
    ensures FirstBatchError(valset, d, n, bs, fr) == None <==>
      && Rankable(valset[fr..], d, n)
      && (fr == |valset| || (n != 1 && bs != 1 && (|valset| - fr) % bs != 1))
    decreases |valset| - fr
  {
    if fr < |valset| {
      var len := |valset| - fr;
      var to := Min(fr + bs, |valset|);
      RankableSplit(valset, d, n, fr, to);
      if n == 0 {
        assert !(valset[fr..to][0].o < n);
      }
      if to < |valset| {
        FirstBatchErrorMeaning(valset, d, n, bs, to);
        ModStep(len, bs);
        assert |valset| - to == len - bs;
      } else {
        assert valset[to..] == [];
        assert valset[fr..to] == valset[fr..];
        if bs > 1 {
          ModLast(len, bs);
        }
      }
    }
  }

  /** The positions `range(0, stop, step)` visits, for a positive step. */
  function Steps(fr: nat, stop: nat, step: nat): (r: seq<nat>)
    requires step > 0
    ensures forall k | 0 <= k < |r| :: fr <= r[k] < stop
    decreases stop - fr
  {
    if fr >= stop then [] else [fr] + Steps(fr + step, stop, step)
  }

  /** The call `rng(0, stop, step, desc=..., leave=...)` of `eval`: with
      `verbose` it is tqdm.trange, which forwards to `range` and raises
      ValueError on a zero step; without it, the builtin `range`, which
      takes no keyword arguments and raises TypeError. */
  function RangeCall(verbose: bool, stop: nat, step: int): (r: Result<seq<nat>>)
    ensures r.Ok? ==> forall k | 0 <= k < |r.value| :: r.value[k] < stop
  {
    if !verbose then Err(TypeError)
    else if step == 0 then Err(ValueError)
    else if step < 0 then Ok([])
    else Ok(Steps(0, stop, step))
  }

  /** As written, `eval` with its default verbose=False cannot run: its first
      loop header already raises TypeError, whatever the inputs, while the
      verbose loop header only fails on a zero step. */
  lemma QuietEvalRaises(stop: nat, step: int)
    ensures RangeCall(false, stop, step) == Err(TypeError)
    ensures RangeCall(true, stop, step).Err? <==> step == 0
  {
  }

  /** Ranks of the validation set are the ranks of its parts. */
  lemma ExpectedRanksSplit(valset: seq<Triple>, d: TrueDicts, n: nat, fr: nat, to: nat, score: Triple -> Score)
    requires fr <= to <= |valset|
    requires Rankable(valset[..fr], d, n) && Rankable(valset[fr..to], d, n)
    ensures Rankable(valset[..to], d, n)
    ensures ExpectedRanks(valset[..to], n, d, score)
      == ExpectedRanks(valset[..fr], n, d, score) + ExpectedRanks(valset[fr..to], n, d, score)
  {
    RankableSplit(valset[..to], d, n, 0, fr);
    assert valset[..to][0..] == valset[..to];
    assert valset[..to][..fr] == valset[..fr];
    assert valset[..to][fr..] == valset[fr..to];
  }

  /** One batch of `eval`: the score matrix of all candidates, filtered, and
      the rank of each target. */
  method RankBatch(batch: seq<Triple>, d: TrueDicts, n: nat, score: Triple -> Score) returns (r: Result<seq<nat>>)
    ensures r.Err? <==> BatchError(batch, d, n).Some?
    ensures r.Err? ==> r.error == BatchError(batch, d, n).value
    ensures r.Ok? ==> r.value == ExpectedRanks(batch, n, d, score)
  {
    var head := false;
    var bn := |batch|;
    if bn == 0 || n == 0 {
      return Err(RuntimeError);
    }
    if bn == 1 || n == 1 {
      return Err(AssertionError);
    }
    var scores := new Score[bn, n]((i, c) requires 0 <= i < bn && 0 <= c < n =>
      score(Candidate(batch[i], c, head)));
    forall i | 0 <= i < bn ensures RowOf(scores, i) == CandidateRow(batch[i], n, head, score) {
    }
    var outcome := FilterScores(scores, batch, d, head);
    if outcome.Fail? {
      return Err(outcome.error);
    }
    for i := 0 to bn
      invariant forall i' | 0 <= i' < i :: batch[i'].o < n
    {
      if batch[i].o >= n {
        return Err(IndexError);
      }
    }
    var ranks: seq<nat> := [];
    for i := 0 to bn
      invariant |ranks| == i
      invariant forall i' | 0 <= i' < i :: ranks[i'] == TargetRank(batch[i'], n, d, false, score)
    {
      ranks := ranks + [Rank(RowOf(scores, i), batch[i].o)];
    }
    r := Ok(ranks);
  }

  /** eval, tail prediction only, with the batch loop of the verbose
      branch: scores every candidate of every validation triple, batch by
      batch, filters known completions, ranks the target and aggregates MRR
      and Hits@k. A zero batch size makes the loop header raise; a negative
      one or an empty validation set yields no ranks and the mean divides
      by zero; otherwise the first failing batch decides the exception. */
  method Eval(valset: seq<Triple>, d: TrueDicts, n: nat, batchSize: int, hitsat: seq<int>,
              score: Triple -> Score) returns (r: Result<Metrics>)
    ensures batchSize == 0 ==> r == Err(ValueError)
    ensures batchSize < 0 || valset == [] ==> batchSize == 0 || r == Err(ZeroDivisionError)
    ensures batchSize > 0 && FirstBatchError(valset, d, n, batchSize, 0).Some? ==>
      r == Err(FirstBatchError(valset, d, n, batchSize, 0).value)
    ensures batchSize > 0 && valset != [] && FirstBatchError(valset, d, n, batchSize, 0).None? ==> r.Ok?
    ensures r.Ok? ==>
      && batchSize > 0 && valset != [] && Rankable(valset, d, n)
      && r.value.ranks == ExpectedRanks(valset, n, d, score)
      && r.value.mrr == MRR(r.value.ranks)
      && |r.value.hits| == |hitsat|
      && forall k | 0 <= k < |hitsat| :: r.value.hits[k] == HitsAt(r.value.ranks, hitsat[k])
  {
    if batchSize == 0 {
      return Err(ValueError);
    }
    var ranks: seq<nat> := [];
    if batchSize > 0 {
      var fr := 0;
      assert valset[..0] == [];
      while fr < |valset|
        invariant 0 <= fr <= |valset|
        invariant FirstBatchError(valset, d, n, batchSize, 0) == FirstBatchError(valset, d, n, batchSize, fr)
        invariant Rankable(valset[..fr], d, n)
        invariant ranks == ExpectedRanks(valset[..fr], n, d, score)
      {
        var to := Min(fr + batchSize, |valset|);
        var batchRanks := RankBatch(valset[fr..to], d, n, score);
        if batchRanks.Err? {
          return Err(batchRanks.error);
        }
        ExpectedRanksSplit(valset, d, n, fr, to, score);
        ranks := ranks + batchRanks.value;
        fr := to;
      }
      assert valset[..fr] == valset;
    }
    if |ranks| == 0 {
      return Err(ZeroDivisionError);
    }
    var hits: seq<real> := [];
    for k := 0 to |hitsat|
      invariant |hits| == k && forall k' | 0 <= k' < k :: hits[k'] == HitsAt(ranks, hitsat[k'])
    {
      hits := hits + [HitsAt(ranks, hitsat[k])];
    }
    r := Ok(Metrics(MRR(ranks), hits, ranks));
  }
}
