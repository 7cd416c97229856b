/** The relational graph convolution layer for relation prediction
    (torch_rgvae/layers/GCN_layers.py, RelationalGraphConvolutionRP): the
    validation its constructor performs, the parameter shapes it allocates,
    and the shape and index bookkeeping of its forward pass. Parameters are
    represented by their shapes; their values and the tensor products are
    not modelled. */
module RgcLayer {
  import opened Common

  /** The `decomposition` dictionary: a missing key and a None value read
      the same. */
  datatype DecompositionArg = DecompositionArg(kind: Option<string>, numBases: Option<int>, numBlocks: Option<int>)

  /** The constructor's arguments. */
  datatype LayerArgs = LayerArgs(
    numNodes: Option<int>,
    numRelations: Option<int>,
    inFeatures: Option<int>,
    outFeatures: Option<int>,
    edgeDropout: Option<map<string, real>>,
    edgeDropoutSelfLoop: Option<real>,
    bias: bool,
    decomposition: Option<DecompositionArg>,
    verticalStacking: bool,
    resetMode: string)

  function Kind(a: LayerArgs): Option<string> {
    if a.decomposition.Some? then a.decomposition.value.kind else None
  }

  function NumBases(a: LayerArgs): Option<int> {
    if a.decomposition.Some? then a.decomposition.value.numBases else None
  }

  function NumBlocks(a: LayerArgs): Option<int> {
    if a.decomposition.Some? then a.decomposition.value.numBlocks else None
  }

  /** The input dimension: in_features, or num_nodes for a featureless
      layer. */
  function InDimOf(a: LayerArgs): Option<int> {
    if a.inFeatures.Some? then a.inFeatures else a.numNodes
  }

  predicate KnownKind(kind: Option<string>) {
    kind.None? || kind == Some("basis") || kind == Some("block")
  }

  /** `torch.FloatTensor(*dims)`: a None size is a TypeError, a negative
      one a RuntimeError. */
  function TensorError(dims: seq<Option<int>>): (e: Option<Error>)
    ensures e == None <==> forall k | 0 <= k < |dims| :: dims[k].Some? && dims[k].value >= 0
    ensures e.Some? ==> e.value in {TypeError, RuntimeError}
  {
    if exists k | 0 <= k < |dims| :: dims[k].None? then Some(TypeError)
    else if exists k | 0 <= k < |dims| :: dims[k].value < 0 then Some(RuntimeError)
    else None
  }

  function OrElse(first: Option<Error>, second: Option<Error>): Option<Error> {
    if first.Some? then first else second
  }

  /** The guard at the top of the constructor as written: the three checks
      are joined with `or`, so it only fails when all three are missing. */
  predicate GuardAsWritten(a: LayerArgs) {
    a.numNodes.Some? || a.numRelations.Some? || a.outFeatures.Some?
  }

  /** The guard its message asks for: all three are given. */
  predicate AllRequired(a: LayerArgs) {
    a.numNodes.Some? && a.numRelations.Some? && a.outFeatures.Some?
  }

  /** Everything the constructor checks after the guard, in source order:
      the weight tensors of the chosen decomposition, the bias, and the
      reset mode (`'uniform'` reads `self.weights`, which only exists
      without a decomposition, and divides by the square root of its
      second dimension). */
  function InitSteps(a: LayerArgs): Option<Error> {
    var inDim, outDim, rels := InDimOf(a), a.outFeatures, a.numRelations;
    var kind := Kind(a);
    var weightError :=
      if kind.None? then TensorError([rels, inDim, outDim])
      else if kind == Some("basis") then
        var nb := NumBases(a);
        if nb.None? then Some(TypeError)
        else if nb.value <= 0 then Some(AssertionError)
        else OrElse(TensorError([nb, inDim, outDim]), TensorError([rels, nb]))
      else if kind == Some("block") then
        var nb := NumBlocks(a);
        if nb.None? then Some(TypeError)
        else if nb.value <= 0 then Some(AssertionError)
        else if inDim.None? then Some(TypeError)
        else if inDim.value % nb.value != 0 then Some(AssertionError)
        else if outDim.None? then Some(TypeError)
        else if outDim.value % nb.value != 0 then Some(AssertionError)
        else TensorError([rels, nb, Some(inDim.value / nb.value), Some(outDim.value / nb.value)])
      else Some(NotImplementedError);
    var biasError := if a.bias then TensorError([outDim]) else None;
    var resetError :=
      if a.resetMode == "xavier" then None
      else if a.resetMode == "uniform" then
        if kind.Some? then Some(AttributeError)
        else if inDim == Some(0) then Some(ZeroDivisionError)
        else None
      else Some(NotImplementedError);
    OrElse(weightError, OrElse(biasError, resetError))
  }

  /** The constructor as written: the exception it raises, if any. */
  function InitErrorAsWritten(a: LayerArgs): Option<Error> {
    if !GuardAsWritten(a) then Some(AssertionError) else InitSteps(a)
  }

  /** The constructor with the guard its message describes; the layer
      class below is built on this one. */
  function InitError(a: LayerArgs): (e: Option<Error>)
    ensures !AllRequired(a) ==> e == Some(AssertionError)
  {
    if !AllRequired(a) then Some(AssertionError) else InitSteps(a)
  }

  function DefaultArgs(numNodes: Option<int>, numRelations: Option<int>, inFeatures: Option<int>, outFeatures: Option<int>): LayerArgs {
    LayerArgs(numNodes, numRelations, inFeatures, outFeatures, None, None, true, None, false, "xavier")
  }

  /** The guard as written lets a layer without num_nodes through: with
      in_features given, nothing else reads num_nodes, and construction
      succeeds. */
  lemma GuardAdmitsMissingNodes()
    ensures var a := DefaultArgs(None, Some(3), Some(16), Some(8));
      a.numNodes.None? && InitErrorAsWritten(a) == None && InitError(a) == Some(AssertionError)
  {
    var a := DefaultArgs(None, Some(3), Some(16), Some(8));
    assert TensorError([Some(3), Some(16), Some(8)]) == None;
    assert TensorError([Some(8)]) == None;
  }

  /** With the three required arguments given, the two guards agree, and
      the intended one admits nothing else. */
  lemma GuardsAgreeWhenComplete(a: LayerArgs)
    ensures AllRequired(a) ==> InitErrorAsWritten(a) == InitError(a)
    ensures InitError(a) == None ==> AllRequired(a)
    ensures !GuardAsWritten(a) ==> InitErrorAsWritten(a) == Some(AssertionError) && InitError(a) == Some(AssertionError)
  {
  }

  /** Basis decomposition needs a positive number of bases. */
  lemma BasisNeedsBases(a: LayerArgs)
    requires AllRequired(a) && Kind(a) == Some("basis")
    ensures NumBases(a).None? ==> InitError(a) == Some(TypeError)
    ensures NumBases(a).Some? && NumBases(a).value <= 0 ==> InitError(a) == Some(AssertionError)
  {
  }

  /** Block decomposition needs a positive number of blocks dividing both
      dimensions. */
  lemma BlockNeedsDivisibility(a: LayerArgs)
    requires AllRequired(a) && Kind(a) == Some("block")
    requires NumBlocks(a).Some? && NumBlocks(a).value > 0 && InDimOf(a).Some?
    ensures InDimOf(a).value % NumBlocks(a).value != 0 ==> InitError(a) == Some(AssertionError)
    ensures InDimOf(a).value % NumBlocks(a).value == 0 && a.outFeatures.value % NumBlocks(a).value != 0
      ==> InitError(a) == Some(AssertionError)
  {
  }

  /** Any other decomposition type is not implemented. */
  lemma UnknownKindRejected(a: LayerArgs)
    requires AllRequired(a) && !KnownKind(Kind(a))
    ensures InitError(a) == Some(NotImplementedError)
  {
  }

  /** Arguments that pass every check give all sizes, non-negative, and a
      decomposition whose parameters are well formed. */
  lemma InitAccepted(a: LayerArgs)
    requires InitError(a) == None
    ensures AllRequired(a) && InDimOf(a).Some? && KnownKind(Kind(a))
    ensures a.numRelations.value >= 0 && InDimOf(a).value >= 0 && a.outFeatures.value >= 0
    ensures Kind(a) == Some("basis") ==> NumBases(a).Some? && NumBases(a).value > 0
    ensures Kind(a) == Some("block") ==>
      && NumBlocks(a).Some? && NumBlocks(a).value > 0
      && InDimOf(a).value % NumBlocks(a).value == 0 && a.outFeatures.value % NumBlocks(a).value == 0
  {
    var rels, inDim, outDim := a.numRelations, InDimOf(a), a.outFeatures;
    if Kind(a).None? {
      assert TensorError([rels, inDim, outDim]) == None;
      assert [rels, inDim, outDim][0] == rels && [rels, inDim, outDim][1] == inDim && [rels, inDim, outDim][2] == outDim;
    } else if Kind(a) == Some("basis") {
      var nb := NumBases(a);
      assert TensorError([nb, inDim, outDim]) == None && TensorError([rels, nb]) == None;
      assert [nb, inDim, outDim][1] == inDim && [nb, inDim, outDim][2] == outDim && [rels, nb][0] == rels;
    } else {
      var nb := NumBlocks(a).value;
      var dims := [rels, Some(nb), Some(inDim.value / nb), Some(outDim.value / nb)];
      assert TensorError(dims) == None;
      assert dims[0] == rels && dims[2] == Some(inDim.value / nb) && dims[3] == Some(outDim.value / nb);
      assert dims[2].value >= 0 && dims[3].value >= 0 && dims[0].value >= 0;
      DivMul(inDim.value, nb);
      DivMul(outDim.value, nb);
      MulNonneg(nb, inDim.value / nb);
      MulNonneg(nb, outDim.value / nb);
    }
  }

  lemma MulNonneg(x: int, y: int)
    requires x >= 0 && y >= 0
    ensures x * y >= 0
  {
  }

  /** `'uniform'` initialisation only works without a decomposition. */
  lemma UniformNeedsPlainWeights(a: LayerArgs)
    requires InitError(a) == None && a.resetMode == "uniform"
    ensures Kind(a).None? && InDimOf(a) != Some(0)
  {
  }

  /** The relation count without inverse and self-loop relations:
      int((num_relations - 1) / 2), a true division truncated toward
      zero. */
  function OriginalRelations(numRelations: int): (r: int)
    ensures numRelations >= 1 ==> 2 * r + 1 <= numRelations <= 2 * r + 2
    ensures numRelations == 0 ==> r == 0
  {
    if numRelations >= 1 then (numRelations - 1) / 2 else -((1 - numRelations) / 2)
  }

  /** With r original relations, r inverse relations and one self-loop
      relation, the original count is recovered exactly. */
  lemma OriginalRelationsInverse(r: nat)
    ensures OriginalRelations(2 * r + 1) == r
  {
  }

  /** The horizontal-stacking reordering of the normalisation sums as
      written: `sums[n:2n]`, `sums[:n]`, then `sums[-i:]`. */
  function ReorderAsWritten(sums: seq<real>, n: nat, i: nat): seq<real>
    requires |sums| == 2 * n + i
  {
    sums[n..2 * n] + sums[..n] + SliceFrom(sums, -(i as int))
  }

  /** `s[start:]` with Python's slice semantics. */
  function SliceFrom<T>(s: seq<T>, start: int): (r: seq<T>)
    ensures start == 0 ==> r == s
    ensures 0 < -start <= |s| ==> r == s[|s| + start..]
  {
    if start >= 0 then s[if start <= |s| then start else |s|..]
    else s[if |s| + start >= 0 then |s| + start else 0..]
  }

  /** Without self-loops `sums[-0:]` is the whole tensor, so the reordered
      sums are twice as long as the edge values they divide and
      `vals / sums` cannot broadcast. */
  lemma ReorderWithoutSelfLoopsMismatch(sums: seq<real>, n: nat)
    requires |sums| == 2 * n && n > 0
    ensures |ReorderAsWritten(sums, n, 0)| == 4 * n != |sums|
  {
  }

  /** The reordering intended: the segments [n, 2n), [0, n) and then the
      self-loop segment [2n, 2n + i). */
  function ReorderSums(sums: seq<real>, n: nat): (r: seq<real>)
    requires 2 * n <= |sums|
    ensures |r| == |sums|
  {
    sums[n..2 * n] + sums[..n] + sums[2 * n..]
  }

  /** The intended reordering swaps the first two segments and keeps the
      rest: it is a permutation, undoing it is doing it again, and it
      agrees with the written one whenever there are self-loops. */
  lemma ReorderSumsSpec(sums: seq<real>, n: nat, i: nat)
    requires |sums| == 2 * n + i
    ensures forall k | 0 <= k < n :: ReorderSums(sums, n)[k] == sums[n + k] && ReorderSums(sums, n)[n + k] == sums[k]
    ensures forall k | 2 * n <= k < |sums| :: ReorderSums(sums, n)[k] == sums[k]
    ensures multiset(ReorderSums(sums, n)) == multiset(sums)
    ensures ReorderSums(ReorderSums(sums, n), n) == sums
    ensures i > 0 ==> ReorderAsWritten(sums, n, i) == ReorderSums(sums, n)
  {
    var a, b, c := sums[..n], sums[n..2 * n], sums[2 * n..];
    assert sums == a + b + c;
    assert ReorderSums(sums, n) == b + a + c;
    var t := b + a + c;
    assert t[n..2 * n] == a && t[..n] == b && t[2 * n..] == c;
  }

  /** The layer. Parameters are held by their shapes. */
  class Layer {
    var numNodes: Option<int>
    var numRelations: Option<int>
    var inFeatures: Option<int>
    var outFeatures: Option<int>
    var weightDecomp: Option<string>
    var numBases: Option<int>
    var numBlocks: Option<int>
    var verticalStacking: bool
    var edgeDropout: Option<map<string, real>>
    var edgeDropoutSelfLoop: Option<real>
    var weights: Option<seq<int>>
    var bases: Option<seq<int>>
    var comps: Option<seq<int>>
    var blocks: Option<seq<int>>
    var bias: Option<seq<int>>
    var training: bool

    function InDim(): Option<int>
      reads this
    {
      if inFeatures.Some? then inFeatures else numNodes
    }

    /** What a successfully constructed layer looks like: the required
        sizes are present, the decomposition is known and exactly its
        parameters are allocated with the shapes it implies. */
    predicate Valid()
      reads this
    {
      && numNodes.Some? && numRelations.Some? && outFeatures.Some? && InDim().Some?
      && numRelations.value >= 0 && outFeatures.value >= 0 && InDim().value >= 0
      && KnownKind(weightDecomp)
      && (var rels, inDim, outDim := numRelations.value, InDim().value, outFeatures.value;
          && (weightDecomp.None? ==> weights == Some([rels, inDim, outDim]) && bases.None? && comps.None? && blocks.None?)
          && (weightDecomp == Some("basis") ==>
                && numBases.Some? && numBases.value > 0 && weights.None? && blocks.None?
                && bases == Some([numBases.value, inDim, outDim]) && comps == Some([rels, numBases.value]))
          && (weightDecomp == Some("block") ==>
                && numBlocks.Some? && numBlocks.value > 0 && weights.None? && bases.None? && comps.None?
                && inDim % numBlocks.value == 0 && outDim % numBlocks.value == 0
                && blocks == Some([rels, numBlocks.value, inDim / numBlocks.value, outDim / numBlocks.value])))
    }

    /** The constructor of a layer whose arguments pass every check. */
    constructor (a: LayerArgs)
      requires InitError(a) == None
      ensures Valid()
      ensures numNodes == a.numNodes && numRelations == a.numRelations
      ensures inFeatures == a.inFeatures && outFeatures == a.outFeatures
      ensures weightDecomp == Kind(a) && numBases == NumBases(a) && numBlocks == NumBlocks(a)
      ensures verticalStacking == a.verticalStacking
      ensures edgeDropout == a.edgeDropout && edgeDropoutSelfLoop == a.edgeDropoutSelfLoop
      ensures bias == if a.bias then Some([a.outFeatures.value]) else None
      ensures training
    {
      InitAccepted(a);
      var inDim := if a.inFeatures.Some? then a.inFeatures.value else a.numNodes.value;
      var outDim := a.outFeatures.value;
      var rels := a.numRelations.value;
      numNodes := a.numNodes;
      numRelations := a.numRelations;
      inFeatures := a.inFeatures;
      outFeatures := a.outFeatures;
      weightDecomp := Kind(a);
      numBases := NumBases(a);
      numBlocks := NumBlocks(a);
      verticalStacking := a.verticalStacking;
      edgeDropout := a.edgeDropout;
      edgeDropoutSelfLoop := a.edgeDropoutSelfLoop;
      weights, bases, comps, blocks := None, None, None, None;
      if Kind(a).None? {
        weights := Some([rels, inDim, outDim]);
      } else if Kind(a) == Some("basis") {
        bases := Some([NumBases(a).value, inDim, outDim]);
        comps := Some([rels, NumBases(a).value]);
      } else {
        var nb := NumBlocks(a).value;
        blocks := Some([rels, nb, inDim / nb, outDim / nb]);
      }
      if a.bias {
        bias := Some([outDim]);
      } else {
        bias := None;
      }
      training := true;
    }

    /** The shape of the weights `forward` materialises: the weights
        themselves, the basis combination `rb,bio->rio`, or the block
        diagonal of the blocks. */
    function MaterialisedShape(): (r: seq<int>)
      reads this
      requires Valid()
      ensures r == [numRelations.value, InDim().value, outFeatures.value]
    {
      if weightDecomp.None? then weights.value
      else if weightDecomp == Some("basis") then [comps.value[0], bases.value[1], bases.value[2]]
      else
        var nb := blocks.value[1];
        DivMul(InDim().value, nb);
        DivMul(outFeatures.value, nb);
        [blocks.value[0], nb * blocks.value[2], nb * blocks.value[3]]
    }

    /** The self-loop keep probability: 1 - edge_dropout["self_loop"] while
        training, 1 otherwise. */
    function SelfLoopKeepProb(): Result<real>
      reads this
    {
      if !training then Ok(1.0)
      else if edgeDropout.None? then Err(TypeError)
      else if "self_loop" !in edgeDropout.value then Err(KeyError)
      else Ok(1.0 - edgeDropout.value["self_loop"])
    }

    /** The bookkeeping of `forward` for `n` input triples, `selfLoops`
        generated self-loop triples and the normalisation `sums` of the
        stacked adjacency's 2n + selfLoops entries; the result is the shape
        of the output. Horizontal stacking reorders the sums with the
        corrected `ReorderSums`, which keeps their length, so `vals / sums`
        always broadcasts. The NotImplementedError branch for an unknown
        decomposition cannot be reached by a constructed layer. */
    function ForwardShape(featuresGiven: bool, n: nat, selfLoops: nat, sums: seq<real>): (r: Result<(int, int)>)
      reads this
      requires Valid() && |sums| == 2 * n + selfLoops
      ensures r.Ok? ==> r.value == (numNodes.value, outFeatures.value)
    {
      var rels, nodes := numRelations.value, numNodes.value;
      if featuresGiven != inFeatures.Some? then Err(AssertionError)
      else
        var keep := SelfLoopKeepProb();
        if keep.Err? then Err(keep.error)
        else
          if MaterialisedShape() != [rels, InDim().value, outFeatures.value] then Err(AssertionError)
          else if inFeatures.None? && verticalStacking && rels * nodes != nodes then Err(RuntimeError)
          else Ok((nodes, outFeatures.value))
    }
  }

  lemma DivMul(x: int, d: int)
    requires d > 0 && x % d == 0
    ensures d * (x / d) == x
  {
  }

  lemma MulIdentity(r: int, n: int)
    ensures r * n == n <==> r == 1 || n == 0
  {
    assert r * n - n == (r - 1) * n;
  }

  /** A valid layer's forward pass fails only on features given to a
      featureless layer (or missing for a layer with features), on
      edge-dropout settings that lack the self-loop rate while training,
      and on a featureless vertically stacked layer with more than one
      relation; otherwise the output is num_nodes by out_features. */
  lemma ForwardMeaning(l: Layer, featuresGiven: bool, n: nat, selfLoops: nat, sums: seq<real>)
    requires l.Valid() && |sums| == 2 * n + selfLoops
    ensures var r := l.ForwardShape(featuresGiven, n, selfLoops, sums);
      && (featuresGiven != l.inFeatures.Some? ==> r == Err(AssertionError))
      && (featuresGiven == l.inFeatures.Some? && l.training && l.edgeDropout.None? ==> r == Err(TypeError))
      && (featuresGiven == l.inFeatures.Some? && l.training && l.edgeDropout.Some? && "self_loop" !in l.edgeDropout.value
          ==> r == Err(KeyError))
      && (featuresGiven == l.inFeatures.Some? && l.SelfLoopKeepProb().Ok? ==>
            (r.Ok? <==> !(l.inFeatures.None? && l.verticalStacking && l.numRelations.value != 1 && l.numNodes.value != 0)))
      && (r.Ok? ==> r.value == (l.numNodes.value, l.outFeatures.value))
  {
    MulIdentity(l.numRelations.value, l.numNodes.value);
  }

  /** A kept fraction of self-loops is a probability when the dropout
      rate is. */
  lemma KeepProbIsProbability(l: Layer)
    requires l.edgeDropout.Some? && "self_loop" in l.edgeDropout.value
    requires 0.0 <= l.edgeDropout.value["self_loop"] <= 1.0
    ensures l.SelfLoopKeepProb().Ok?
    ensures 0.0 <= l.SelfLoopKeepProb().value <= 1.0
    ensures l.training ==> l.SelfLoopKeepProb().value + l.edgeDropout.value["self_loop"] == 1.0
  {
  }

  /** A freshly built layer with features runs in training mode as soon as
      the self-loop rate is given. */
  method BuildAndCheck(nodes: nat, rels: nat, inF: nat, outF: nat, rate: real) returns (r: Result<(int, int)>)
    requires 0 < nodes && 0 < inF
    ensures r == Ok((nodes as int, outF as int))
  {
    var a := LayerArgs(Some(nodes), Some(rels), Some(inF), Some(outF), Some(map["self_loop" := rate]), None, true, None, false, "uniform");
    assert TensorError([Some(rels), Some(inF), Some(outF)]) == None;
    assert TensorError([Some(outF)]) == None;
    var l := new Layer(a);
    ForwardMeaning(l, true, 2, 1, [1.0, 1.0, 1.0, 1.0, 1.0]);
    r := l.ForwardShape(true, 2, 1, [1.0, 1.0, 1.0, 1.0, 1.0]);
  }
}
