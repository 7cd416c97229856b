/** Shared vocabulary of the model: optional values, results carrying the
    exception a Python operation would raise, and knowledge-graph triples. */
module Common {

  datatype Option<+T> = None | Some(value: T)

  /** The Python exception classes the modelled code can raise. */
  datatype Error =
    | KeyError
    | ValueError
    | TypeError
    | IndexError
    | AssertionError
    | RuntimeError
    | NotImplementedError
    | AttributeError
    | ZeroDivisionError
    | NameError

  /** The outcome of an operation that returns nothing: it completes or
      raises. */
  datatype Outcome = Pass | Fail(error: Error)

  /** Either a value or the exception that the operation raises instead. */
  datatype Result<+T> = Ok(value: T) | Err(error: Error)

  /** An indexed knowledge-graph edge (subject, predicate, object). */
  datatype Triple = Triple(s: nat, p: nat, o: nat)

  /** The concatenation of a sequence of sequences (row-major flattening). */
  function Concat<T>(xss: seq<seq<T>>): seq<T> {
    if xss == [] then [] else Concat(xss[..|xss| - 1]) + xss[|xss| - 1]
  }

  lemma MulStep(m: nat, w: nat)
    ensures (m + 1) * w == m * w + w
  {
  }

  /** Flattening blocks of equal width w puts element j of block b at
      b * w + j. */
  lemma {:induction false} ConcatIndex<T>(xss: seq<seq<T>>, w: nat)
    requires forall b | 0 <= b < |xss| :: |xss[b]| == w
    ensures |Concat(xss)| == |xss| * w
    ensures forall b, j | 0 <= b < |xss| && 0 <= j < w :: b * w + j < |xss| * w && Concat(xss)[b * w + j] == xss[b][j]
  {
    if xss != [] {
      var m := |xss| - 1;
      var front := Concat(xss[..m]);
      ConcatIndex(xss[..m], w);
      MulStep(m, w);
      assert Concat(xss) == front + xss[m];
      forall b, j | 0 <= b < |xss| && 0 <= j < w
        ensures b * w + j < |xss| * w && Concat(xss)[b * w + j] == xss[b][j]
      {
        var at := b * w + j;
        if b < m {
          assert xss[..m][b] == xss[b];
          MulAtMost(b, m, w);
          assert at < |front|;
          assert Concat(xss)[at] == front[at];
        } else {
          assert at == |front| + j;
        }
      }
    }
  }

  /** Appending one block appends its elements. */
  lemma ConcatSnoc<T>(xss: seq<seq<T>>, xs: seq<T>)
    ensures Concat(xss + [xs]) == Concat(xss) + xs
  {
    assert (xss + [xs])[..|xss|] == xss;
  }

  /** One instance of `ConcatIndex`. */
  lemma ConcatAt<T>(xss: seq<seq<T>>, w: nat, b: nat, j: nat)
    requires forall b' | 0 <= b' < |xss| :: |xss[b']| == w
    requires b < |xss| && j < w
    ensures |Concat(xss)| == |xss| * w
    ensures b * w + j < |xss| * w && Concat(xss)[b * w + j] == xss[b][j]
  {
    ConcatIndex(xss, w);
  }

  lemma MulAtMost(b: nat, m: nat, w: nat)
    requires b < m
    ensures b * w + w <= m * w
  {
    MulStep(b, w);
    assert (b + 1) * w <= m * w by {
      MulMono(b + 1, m, w);
    }
  }

  lemma MulMono(a: nat, b: nat, w: nat)
    requires a <= b
    ensures a * w <= b * w
  {
  }

  function Min(a: int, b: int): int { if a <= b then a else b }
}
