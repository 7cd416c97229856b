# RGVAE link-prediction utilities and relational convolution layer, in Dafny

This project models the deterministic core of the RGVAE relation-prediction
code base:

- `lp_utils.py`: the triple/matrix codec (`triple2matrix`, `batch_t2m`,
  `matrix2triple`), the filtered link-prediction evaluation (`truedicts`,
  `filter`, `filter_scores_`, the tie-corrected rank and the MRR / Hits@k
  metrics of `eval`), the sparse index algebra (`adj`, `adj_triples`,
  `adj_triples_tensor`, the block-diagonal offsets of `batchmm`,
  `sum_sparse`, `block_diag`, `mask_`), the small utilities (`schedule`,
  `prod`, `intlist`, `contains_nan` / `contains_inf`, `batch`, `get_slug`)
  and the in-memory indexing half of `load_link_prediction_data`;
- `torch_rgvae/layers/GCN_layers.py`: the argument validation and parameter
  shapes of `RelationalGraphConvolutionRP.__init__` and the shape and index
  bookkeeping of its `forward`.

Node and relation ids are `nat`, triples are `Common.Triple`, tensors are
sequences or Dafny arrays, and every Python exception the code can raise is a
`Common.Error` returned through `Result` / `Outcome`. Scores are integers
extended with `NegInf` so that comparisons and ties are exact; the scoring
model is an oracle function `score: Triple -> Score`.

Modules: `Common` (common.dfy), `Codec` (codec.dfy), `Ranking`
(ranking.dfy), `Sparse` (sparse.dfy), `Utils` (utils.dfy), `Loading`
(loading.dfy), `RgcLayer` (rgc_layer.dfy).

The model follows the code. Where the code evidently does not do what its
authors intended, the disagreement is listed under "## Findings" with a
member for the as-written behaviour and a corrected member, and the rest of
the model is built on the corrected member: `Ranking.Eval` iterates without
the progress-bar arguments, `RgcLayer.Layer.constructor` is guarded by
`RgcLayer.InitError`, and `RgcLayer.Layer.ForwardShape` reorders the sums
with `RgcLayer.ReorderSums`. "## Left out" names what this leaves
unmodelled.

## Model

| member | source | states |
|---|---|---|
| Codec.UniqueSpec | lp_utils.py:105 | `dict.fromkeys` deduplication keeps exactly the elements of the list, without repeats, and never grows it |
| Codec.Subjects | lp_utils.py:105 | the subject column has one entry per triple, entry k being triple k's subject |
| Codec.Objects | lp_utils.py:105 | the object column has one entry per triple, entry k being triple k's object |
| Codec.ZipIndexSpec | lp_utils.py:106 | `dict(zip(l, arange))` has exactly the elements of l as keys, maps each to a position holding it, and that position is the last one (later keys overwrite earlier ones) |
| Codec.SlotsBounded | lp_utils.py:105-107 | every subject and object of the sample gets a slot, every slot is below n = 2·len(triples), and distinct node ids get distinct slots |
| Codec.ObjectSlotWins | lp_utils.py:105-106 | a node that occurs as an object takes its slot in the object list (after all unique subjects); a node that is only a subject takes its subject-list slot |
| Codec.EdgeAtMeans | lp_utils.py:115-117 | an A cell (i, j) is written exactly when some triple has its subject in slot i and its object in slot j |
| Codec.EdgeHasRelation | lp_utils.py:117-118 | every written A cell has at least one written E channel below max_r |
| Codec.Triple2Matrix | lp_utils.py:94-121 | raises IndexError iff some relation id is ≥ max_r or some node id is ≥ max_n; otherwise the fresh A (n×n), E (n×n×max_r) and F (n×max_n) hold 1 exactly at A[slot s, slot o], E[slot s, slot o, r], F[slot s, s], F[slot o, o] for the sample's triples and 0 everywhere else |
| Codec.WriteCells | lp_utils.py:115-120 | the loop stops (IndexError) iff some id lies outside the E channels or the F columns; when it completes, starting from zero arrays, each cell is 1 exactly when some triple writes it |
| Codec.Window | lp_utils.py:188 | the slice `batch[ii:ii+n]` has min(n, bs - ii) rows, row k being input row ii + k |
| Codec.RowsOf | lp_utils.py:179-183 | a one-dimensional input is treated as a batch of one row |
| Codec.CatSucceedsIff | lp_utils.py:187-194 | with at least two rows, concatenating the per-window samples of different sizes fails unless n ≤ 1 |
| Codec.WindowsInRange | lp_utils.py:187-188 | every window `batch[ii:ii+n]` has its ids in range iff n = 0 or every row of the batch has |
| Codec.EncodeWindows | lp_utils.py:187-192 | the per-window loop completes iff every window has its ids in range, and then sample ii encodes window ii |
| Codec.BatchT2M | lp_utils.py:168-194 | IndexError iff n > 0 and some row has an id out of range; RuntimeError iff the ids are in range and the window sizes prevent concatenation; otherwise one sample per input row, sample ii encoding rows ii .. min(ii+n, bs)-1 |
| Codec.OnesBefore | lp_utils.py:135 | every listed cell holds a 1 |
| Codec.OnesBeforeSpec | lp_utils.py:135 | the cells before (i, j) in row-major order that hold 1 are exactly the listed ones, in strictly increasing row-major order |
| Codec.Ones | lp_utils.py:135 | every cell returned by `np.where(a == 1)` holds a 1 |
| Codec.OnesExact | lp_utils.py:135 | a cell is listed iff it holds 1, and the list is in row-major order |
| Codec.FirstActive | lp_utils.py:142-144 | the first active relation channel of a cell: none is active before it, and None means no channel is active |
| Codec.DecodeCellsSound | lp_utils.py:137-151 | with a single relation channel (E squeezed to 2-D) every cell is decoded, in order, with its E entry as relation, and nothing stops or raises; otherwise decoding emits the cells in order with their first active channel, stops exactly at the first cell without one (consistent iff every cell was decoded), and raises ValueError only when some first channel is 0 |
| Codec.Matrix2Triple | lp_utils.py:123-151 | the loop over the edges of A produces the same result as decoding the row-major list of 1-cells |
| Codec.EncodedEdgesHaveChannel | lp_utils.py:115-147 | decoding an encoding never stops early: every edge of an encoded A has an active channel in E |
| Ranking.HeadsUpToMembers | lp_utils.py:247-250 | s is appended to heads[(p, o)] iff (s, p, o) is among the triples seen |
| Ranking.TailsUpToMembers | lp_utils.py:247-251 | o is appended to tails[(s, p)] iff (s, p, o) is among the triples seen |
| Ranking.BuildTrueDicts | lp_utils.py:241-253 | the heads and tails keys are exactly the occurring (p, o) and (s, p) pairs, each holding the completions in iteration order |
| Ranking.TrueDictsMeaning | lp_utils.py:241-253 | s ∈ heads[(p, o)] iff (s, p, o) ∈ all, o ∈ tails[(s, p)] iff (s, p, o) ∈ all, and a key exists iff some triple has it |
| Ranking.FilterTriples | lp_utils.py:204-211 | the loop returns the triples kept by the filter predicate, in order |
| Ranking.KeptMeaning | lp_utils.py:207-209 | a triple is kept iff it is in the input and it is the true triple or not known; the output is never longer |
| Ranking.FilteredRow | lp_utils.py:228-239 | filtering a score row keeps its length |
| Ranking.FilteredRowMeaning | lp_utils.py:228-239 | known completions other than the target become -inf, the target and every other cell keep their score, and filtering twice equals filtering once |
| Ranking.RowOf | lp_utils.py:318 | a row of the score matrix read as a sequence |
| Ranking.RowPairsMembers | lp_utils.py:231-233 | the pairs (i, c) collected for row i are the completions c of its base other than its target |
| Ranking.PairsUpToMembers | lp_utils.py:228-233 | the collected index pairs are exactly the (row, completion) pairs of the rows seen, minus each row's target |
| Ranking.CollectIndices | lp_utils.py:224-233 | raises KeyError iff some row's base pair is not a key; otherwise returns exactly the pairs to overwrite |
| Ranking.FilterScores | lp_utils.py:214-239 | KeyError iff a base pair is missing, IndexError iff a completion lies outside the matrix, the matrix unchanged on either; on success exactly the known non-target completions of each row become -inf |
| Ranking.WriteNegInf | lp_utils.py:238-239 | the advanced-index write sets exactly the listed cells to -inf and leaves every other cell unchanged |
| Ranking.CountsBounded | lp_utils.py:319-321 | the numbers of higher and of tied scores together never exceed the row length |
| Ranking.TiesCountSelf | lp_utils.py:321 | the target is counted among its own ties |
| Ranking.Rank | lp_utils.py:318-326 | the rank #(higher) + (#(ties) - 1) div 2 + 1 lies between 1 and n |
| Ranking.StrictlyBestRanksFirst | lp_utils.py:319-326 | a target scoring strictly above every other candidate has no higher scores, one tie, and rank 1 |
| Ranking.CountAboveMono | lp_utils.py:319 | counting higher scores is monotone in the set of candidates above the target |
| Ranking.CountTiesMono | lp_utils.py:321 | counting ties is monotone in the set of tied candidates |
| Ranking.FilteringNeverWorsensRank | lp_utils.py:314-326 | filtering a row never increases the rank of a finitely scored target |
| Ranking.TieExample | lp_utils.py:323-324 | a target tied with two others below two better scores gets rank 2 + (3 - 1) div 2 + 1 = 4 |
| Ranking.SumRecip | lp_utils.py:328 | the sum of reciprocal ranks lies between 0 and the number of ranks, and is positive when there are ranks |
| Ranking.CountWithin | lp_utils.py:332 | at most all ranks are within k |
| Ranking.CountWithinMono | lp_utils.py:332 | the number of ranks ≤ k is nondecreasing in k |
| Ranking.HitsAtBoundsAndMono | lp_utils.py:330-332 | Hits@k lies in [0, 1] and is nondecreasing in k |
| Ranking.Hits1BelowRecip | lp_utils.py:328-332 | the number of first places is at most the sum of reciprocal ranks |
| Ranking.MRRBounds | lp_utils.py:328-332 | MRR lies in (0, 1] and is at least Hits@1 |
| Ranking.AllFirstIsPerfect | lp_utils.py:328-332 | when every target ranks first, MRR and every Hits@k with k ≥ 1 equal 1 |
| Ranking.AllFirstSums | lp_utils.py:328-332 | when every target ranks first, the reciprocal sum and the count within k both equal the number of ranks |
| Ranking.CandidateRow | lp_utils.py:284-308 | the scores of the candidates (s, p, c) of a tail prediction form a row of length n |
| Ranking.TargetRank | lp_utils.py:312-326 | the filtered rank of a triple's target lies between 1 and n |
| Ranking.ExpectedRanks | lp_utils.py:274-326 | one rank per validation triple, each between 1 and n |
| Ranking.BatchError | lp_utils.py:291-321 | RuntimeError (`torch.cat` of nothing) iff the batch has no rows or n = 0; a batch is ranked without error iff it has more than one row, n > 1 and every base key exists with targets and completions below n |
| Ranking.RankableSplit | lp_utils.py:277-280 | the validation set is rankable iff each of two consecutive slices is |
| Ranking.FirstBatchErrorMeaning | lp_utils.py:277-326 | no batch fails iff every triple is rankable, no batch has one row, and n > 1 |
| Ranking.Steps | lp_utils.py:277 | the batch starts lie in [fr, stop) |
| Ranking.RangeCall | lp_utils.py:266-277 | when the loop header succeeds it yields starts below the validation-set size |
| Ranking.QuietEvalRaises | lp_utils.py:266-277 | with verbose=False the header calls the builtin range with `desc=`/`leave=` and raises TypeError; with verbose=True it fails only for a zero step |
| Ranking.ExpectedRanksSplit | lp_utils.py:277-326 | the ranks of a prefix extended by the next batch are the prefix's ranks followed by the batch's ranks |
| Ranking.RankBatch | lp_utils.py:280-326 | a batch fails with exactly the error its rows provoke (RuntimeError first when it is empty or n = 0); otherwise it returns the filtered rank of each row's tail |
| Ranking.Eval | lp_utils.py:255-337 | batch size 0 raises ValueError, a negative one or an empty set ZeroDivisionError, otherwise the first failing batch decides the error (RuntimeError when n = 0); on success the ranks are those of every triple, MRR is their mean reciprocal and hits[k] is Hits@hitsat[k] |
| Sparse.Checked | lp_utils.py:413-419 | the closing checks: an empty index tensor raises (max of nothing), a coordinate outside the size raises AssertionError, otherwise the pairs are returned with the size (the same checks close adj_triples_tensor and adj) |
| Sparse.AdjTriples | lp_utils.py:421-455 | the loop produces the same result as the vectorised adj_triples_tensor |
| Sparse.AdjTriplesInRange | lp_utils.py:468-484 | with ids in range and at least one triple the checks pass, giving one pair per triple: (rel·n + s, o) vertically, (s, rel·n + o) horizontally |
| Sparse.PlaceRoundTrip | lp_utils.py:471-476 | the stacked coordinate of a triple determines the triple (for n > 0) |
| Sparse.Adj | lp_utils.py:384-419 | unequal source and target lists raise ValueError; otherwise the pairs of the offset lists go through the closing checks with r = number of relations |
| Sparse.AdjAgreesWithTriples | lp_utils.py:401-411 | with balanced lists, adj produces the coordinates adj_triples produces for the dictionary's triples, in order |
| Sparse.Offset | lp_utils.py:605-608 | offsetting keeps one pair per entry |
| Sparse.MatVecAppend | lp_utils.py:608-618 | a sparse product over concatenated entries is the sum of the products over the parts |
| Sparse.Offsets | lp_utils.py:605-608 | matrix m of the batch is offset by (m·height, m·width) |
| Sparse.OffsetBlock | lp_utils.py:605-618 | an offset block, multiplied with the stacked dense column, gives the block's own product at its own rows |
| Sparse.StackedBlock | lp_utils.py:613-614 | the flattened dense batch holds matrix m's rows at m·width .. m·width + width - 1 |
| Sparse.BatchPrefix | lp_utils.py:605-618 | the offset entries of the first mm matrices contribute to row b·height + i exactly matrix b's product at row i |
| Sparse.BatchIndicesShape | lp_utils.py:608-614 | the offset indices and values have equal length and every column falls inside the stacked dense input |
| Sparse.BatchMM | lp_utils.py:585-620 | the result has one block of height rows per batch element |
| Sparse.BatchMMBlocks | lp_utils.py:585-620 | row i of block b of the result is matrix b's sparse product with x_b at row i |
| Sparse.OffsetInBlock | lp_utils.py:605-608 | an offset entry of matrix b lies inside block b of the block-diagonal layout |
| Sparse.Transposed | lp_utils.py:651-654 | `row=False` swaps the two index columns |
| Sparse.Ones | lp_utils.py:656-659 | the ones column has width entries, all 1 |
| Sparse.MatVecOnes | lp_utils.py:656-664 | multiplying by the ones column sums the values of each row (or column) key |
| Sparse.SumSparseBatch | lp_utils.py:632-671 | the shape assertions hold iff the values match the indices batch by batch, AssertionError otherwise; the result has one sum per stored entry in each batch |
| Sparse.SumSparse | lp_utils.py:632-669 | without a batch dimension it succeeds iff there is one value per index pair, returning one sum per entry |
| Sparse.SumSparseBatchMeaning | lp_utils.py:649-671 | entry k of batch b receives the sum of all values of batch b sharing entry k's row (column for `row=False`) |
| Sparse.SumSparseBatchwise | lp_utils.py:640-671 | the batched result is the unbatched result applied to each batch element |
| Sparse.ColumnSumsAreTransposedRowSums | lp_utils.py:651-654 | column sums equal the row sums of the transposed matrix with swapped size |
| Sparse.EntrySumTransposed | lp_utils.py:651-653 | summing a column key equals summing that key as a row of the transposed entries |
| Sparse.MaskedBlocks | lp_utils.py:862-866 | `m2 * eye` keeps block a only in block column a and zeroes every other block |
| Sparse.BlockRows | lp_utils.py:866-868 | the reshape gives p rows per block |
| Sparse.BlockDiagEntry | lp_utils.py:840-868 | entry (a·p + i, b·q + j) of the result is m[a][i][j] when a = b and 0 otherwise |
| Sparse.BlockDiagRow | lp_utils.py:862-868 | result row a·p + i is the concatenation of the masked blocks of row i of block a |
| Sparse.BlockDiagShape | lp_utils.py:856-868 | the result is (N·p) × (N·q) |
| Sparse.BlockDiagExample | lp_utils.py:844-846 | block_diag of a 4×3×2 tensor of ones is a 12×8 matrix with 3×2 blocks of ones on the diagonal |
| Sparse.Mask | lp_utils.py:348-360 | in every batch element, cells with j ≥ i (j > i when the diagonal is kept) become maskval and every other cell is unchanged |
| Utils.InsertByKeySpec | lp_utils.py:802 | inserting into a key-sorted list keeps it sorted and adds exactly one entry |
| Utils.SortByKeySpec | lp_utils.py:801-802 | sorting by key yields a sorted permutation of the items |
| Utils.SortedEntries | lp_utils.py:801-802 | the sorted list is sorted, has the same entries and the same length as the dictionary's items |
| Utils.ScheduleAtFirst | lp_utils.py:806-808 | an epoch at or below the first key yields the first value |
| Utils.ScheduleBetweenKeys | lp_utils.py:806-818 | an epoch between two consecutive keys yields the linear interpolation of their values |
| Utils.SchedulePastLast | lp_utils.py:804-820 | an epoch past every key yields the last value |
| Utils.Schedule | lp_utils.py:793-820 | an empty schedule raises NameError (`v` unbound); otherwise the result is the first value, the interpolation between the surrounding keys, or the last value |
| Utils.InterpBetween | lp_utils.py:812-818 | an interpolated value lies between the two neighbouring values and equals the upper one at its key |
| Utils.ScheduleAtKey | lp_utils.py:793-820 | at a key the schedule yields that key's value |
| Utils.ScheduleValueUnique | lp_utils.py:793-820 | the schedule's value is determined by the epoch and the dictionary |
| Utils.ScheduleCase | lp_utils.py:804-820 | exactly one of the three cases (below the first key, between keys, past the last key) applies |
| Utils.Prod | lp_utils.py:876-881 | the loop returns the product of the elements |
| Utils.ProductAppend | lp_utils.py:876-881 | the product of a concatenation is the product of the products |
| Utils.ProductZero | lp_utils.py:876-881 | the product is 0 iff some element is 0 |
| Utils.Trunc | lp_utils.py:691 | `int()` truncates toward zero |
| Utils.Squeeze | lp_utils.py:683 | squeezing leaves no dimension of size 1 and never adds dimensions |
| Utils.SqueezeKeepsProduct | lp_utils.py:683 | squeezing keeps the number of elements |
| Utils.IntList | lp_utils.py:674-693 | lists and tuples pass through; a tensor raises AssertionError unless it squeezes to one dimension, and then yields the truncation of each entry |
| Utils.SingleElementTensorRejected | lp_utils.py:683-685 | a tensor with one element squeezes to zero dimensions, so the assertion fails |
| Utils.SqueezeOnes | lp_utils.py:683 | squeezing an all-ones shape leaves no dimensions |
| Utils.AnyMatchAppend | lp_utils.py:824-827 | a concatenation has a matching leaf iff one of its parts has one |
| Utils.ContainsWhereMeaning | lp_utils.py:822-838 | on tensors and iterables of them, contains_nan / contains_inf return whether some leaf entry matches |
| Utils.ScanItemsMeaning | lp_utils.py:824-827 | scanning the items from k returns whether some remaining leaf entry matches |
| Utils.OtherWithoutMatchRaises | lp_utils.py:822-838 | reaching a value that is neither a tensor nor an iterable before any match raises TypeError |
| Utils.ScanOtherRaises | lp_utils.py:824-829 | the same, for a scan of the remaining items |
| Utils.BatchApply | lp_utils.py:883-904 | batch size 0 raises ValueError (range step), a negative size or an empty input leaves nothing to concatenate (RuntimeError); otherwise the outputs are those of the chunks [fr, min(n, fr + batch_size)) in order |
| Utils.ChunksCover | lp_utils.py:894-897 | the chunks cover the input exactly, in order, without overlap |
| Utils.MapRows | lp_utils.py:902 | a row-wise model maps each row independently |
| Utils.RowwiseModelUnchanged | lp_utils.py:883-904 | for a row-wise model, batching gives the same result as applying the model to all rows |
| Utils.StripLeft | lp_utils.py:912 | leading whitespace is removed and the result never grows |
| Utils.StripRight | lp_utils.py:912 | trailing whitespace is removed and the result never grows |
| Utils.SpacesToUnderscores | lp_utils.py:912 | each space becomes `_`, every other character is kept |
| Utils.KeepSlugCharsSpec | lp_utils.py:913 | only characters in `[-\w.]` remain, and a string made of them is unchanged |
| Utils.GetSlugSpec | lp_utils.py:906-913 | a slug consists of slug characters and contains no space, and slugging a slug changes nothing |
| Utils.GetSlugExample | lp_utils.py:906-913 | `get_slug(" a b#.c ")` is `a_b.c` |
| Loading.Lower | lp_utils.py:40-52 | lower-casing keeps the length and maps A-Z to a-z |
| Loading.KnownDatasetExamples | lp_utils.py:40-57 | FB15k-237 and WN18RR are accepted in any case, and aifb is rejected |
| Loading.Head | lp_utils.py:68-70 | `xs[:limit]` keeps the first limit elements, or all but the last -limit for a negative limit |
| Loading.NamesOfMeaning | lp_utils.py:73-80 | a name is a node iff it is some row's subject or object, and a relation iff it is some row's predicate |
| Loading.IndexInverse | lp_utils.py:82-83 | the list and the dictionary built from the same set are inverse |
| Loading.ListOf | lp_utils.py:82 | `list(set)` lists each element of the set exactly once |
| Loading.Enumerate | lp_utils.py:83 | the enumerate comprehension maps each listed name to its position |
| Loading.CollectNames | lp_utils.py:73-80 | rows that do not unpack into three names raise ValueError; otherwise the sets are exactly the node and relation names |
| Loading.BuildIndex | lp_utils.py:82-83 | i2n and n2i enumerate the set without repeats and invert each other |
| Loading.RowsIndexed | lp_utils.py:85-90 | every name of every selected row has an id |
| Loading.AllTriples | lp_utils.py:84-87 | all_triples is exactly the set of mapped rows |
| Loading.IndexSelected | lp_utils.py:72-92 | after selection, the result maps each train and test row through the indexes in order and all_triples is the set of mapped rows; rows that are not triples raise ValueError |
| Loading.LoadIndexing | lp_utils.py:27-92 | an unknown dataset name raises ValueError; otherwise the train/test selection (use_test_set, limit) is indexed as above |
| Loading.MappedRowsDecode | lp_utils.py:82-90 | reading a mapped row back through i2n and i2r gives the row's names |
| Loading.MapRowInjective | lp_utils.py:84-90 | two selected rows get the same id triple iff they are equal |
| RgcLayer.TensorError | torch_rgvae/layers/GCN_layers.py:54-76 | allocating a tensor fails iff some size is None (TypeError) or negative (RuntimeError) |
| RgcLayer.InitError | torch_rgvae/layers/GCN_layers.py:28-109 | the constructor with the guard its message asks for: any missing num_nodes, num_relations or out_features raises AssertionError |
| RgcLayer.GuardAdmitsMissingNodes | torch_rgvae/layers/GCN_layers.py:28-29 | the `or` guard accepts num_nodes=None when in_features is given, and construction then succeeds |
| RgcLayer.GuardsAgreeWhenComplete | torch_rgvae/layers/GCN_layers.py:28-29 | when all three are given the two guards agree, the corrected constructor succeeds only then, and both reject when all three are missing |
| RgcLayer.BasisNeedsBases | torch_rgvae/layers/GCN_layers.py:55-58 | basis decomposition without num_bases raises TypeError and with num_bases ≤ 0 AssertionError |
| RgcLayer.BlockNeedsDivisibility | torch_rgvae/layers/GCN_layers.py:61-67 | block decomposition raises AssertionError unless num_blocks divides both in_dim and out_dim |
| RgcLayer.UnknownKindRejected | torch_rgvae/layers/GCN_layers.py:71-72 | any decomposition type other than None, basis or block raises NotImplementedError |
| RgcLayer.InitAccepted | torch_rgvae/layers/GCN_layers.py:28-80 | an accepted configuration has all required sizes, a known decomposition, nonnegative dimensions, positive bases, and blocks dividing both dimensions |
| RgcLayer.UniformNeedsPlainWeights | torch_rgvae/layers/GCN_layers.py:96-104 | `reset_mode='uniform'` only succeeds without a decomposition and with a nonzero input dimension |
| RgcLayer.OriginalRelations | torch_rgvae/layers/GCN_layers.py:131 | `int((R - 1) / 2)` counts the relations without inverses and self-loops: R lies in [2r + 1, 2r + 2] |
| RgcLayer.OriginalRelationsInverse | torch_rgvae/layers/GCN_layers.py:131 | for R = 2r + 1 (relations, inverses, self-loop) the count is r |
| RgcLayer.SliceFrom | torch_rgvae/layers/GCN_layers.py:168 | `sums[-i:]` is the whole tensor for i = 0 and the last i entries otherwise |
| RgcLayer.ReorderWithoutSelfLoopsMismatch | torch_rgvae/layers/GCN_layers.py:164-169 | without self-loops the reordered sums have 4n entries while there are 2n values |
| RgcLayer.ReorderSums | torch_rgvae/layers/GCN_layers.py:164-168 | the corrected reordering keeps the number of sums |
| RgcLayer.ReorderSumsSpec | torch_rgvae/layers/GCN_layers.py:164-168 | the reordering swaps the segments [0, n) and [n, 2n), keeps the self-loop segment, is a permutation and its own inverse, and equals the code whenever there are self-loops |
| RgcLayer.Layer.constructor | torch_rgvae/layers/GCN_layers.py:15-80 | a constructed layer stores its arguments, the unpacked decomposition and the bias shape, is in training mode, and holds the parameter shapes of its decomposition |
| RgcLayer.Layer.MaterialisedShape | torch_rgvae/layers/GCN_layers.py:117-124 | the materialised weights (plain, `rb,bio->rio` or block diagonal) have shape (num_relations, in_dim, out_dim) |
| RgcLayer.Layer.ForwardShape | torch_rgvae/layers/GCN_layers.py:111-192 | a successful forward pass outputs (num_nodes, out_dim) |
| RgcLayer.ForwardMeaning | torch_rgvae/layers/GCN_layers.py:114-192 | forward fails on features given to a featureless layer or missing for one with features (AssertionError), on a missing self-loop rate while training (TypeError / KeyError), and on a featureless vertically stacked layer with R ≠ 1; otherwise it outputs (num_nodes, out_dim) |
| RgcLayer.KeepProbIsProbability | torch_rgvae/layers/GCN_layers.py:135-138 | the self-loop keep probability is 1 - rate while training (1 otherwise) and lies in [0, 1] |
| RgcLayer.BuildAndCheck | torch_rgvae/layers/GCN_layers.py:96-104 | example: a layer with features built with `reset_mode='uniform'` runs a forward pass to a (num_nodes, out_features) output |

## Left out

- Scoring inside `eval` (`model.elbo`, `model.forward`, `reconstruction_loss`, and the `batch_t2m` call that prepares their input) is the oracle `score`; loss values are integers, so NaN scores are not modelled.
- Head prediction in `eval`: `head = False` is hard-coded, so only tail prediction runs (the filtering functions keep the `head` flag).
- The `tqdm` progress bars, `prt`, `print`, and the `tic`/`toc` timer stack are output or timing only. The `tic` in `adj_triples` that is never popped is not modelled.
- Codec.Matrix2Triple: with several relation channels the relation is chosen by `np.random.choice(cho[0])`, which is random. The model keeps only the first active channel, the stop at a cell without one, and the ValueError when that channel is 0. With a single channel the E entry itself is the relation, as in the code. The triple built from F rows is not modelled.
- Ranking.MRR, Ranking.HitsAt, Ranking.SumRecip, Utils.Schedule, Utils.Interp: exact real arithmetic; float rounding is not modelled.
- `translate_triple` and `attach_dim` are not modelled: a dictionary lookup and a reshape.
- `SparseMMCPU`/`SparseMMGPU`, `spmm`, `sparsemm`, `simple_normalize`, `logsoftmax`, `rowpnorm` and `itmax` are not modelled: floating-point numerics and autograd.
- Sparse.BatchMM: only the index offsetting and the product with one dense column are modelled. Values are integers and indices are required to lie in bounds.
- Sparse.BlockDiagEntry and the other block-diagonal lemmas: no leading batch dimensions and no list input.
- Sparse.SumSparseBatch: only one folded batch dimension is modelled.
- Utils.IntList: list and tuple inputs are modelled as integer lists; `int()` of NaN or infinity is not modelled.
- Utils.ContainsWhere: strings, which are iterables of strings and recurse without end in Python, are not modelled. Leaves are modelled as flat tensors.
- Utils.GetSlug: only ASCII whitespace is stripped and only ASCII letters, digits and `_` count as `\w`; Unicode categories are not modelled.
- Loading.Lower: only ASCII upper case is mapped.
- Loading.LoadIndexing: which file a dataset name selects, and reading it (`locate_file`, `load_strings`, `here`), are not modelled; the rows are parameters. The `len(i) < 3` diagnostic print is output only.
- Loading.ListOf: Python's set iteration order is arbitrary; the model picks some order, and the results are stated for any order.
- `d()` device selection and the CUDA moves in `batch` are not modelled: they choose a device only.
- RgcLayer.InitSteps: xavier and uniform initialisation are random, so parameters are represented by their shapes. Failures of the torch initialisers on empty tensors are not modelled.
- RgcLayer.Layer.ForwardShape: `generate_inverses`, `generate_self_loops`, `stack_matrices` and the `sum_sparse` of `utils.utils` are not part of this model. The self-loop count and the normalisation sums are parameters, and features are assumed to have shape (num_nodes, in_features). The einsums and sparse products are reduced to their shape conditions. The bias addition and the CUDA branch are not modelled. With horizontal stacking the sums are reordered by the corrected `RgcLayer.ReorderSums` of the third Finding, which keeps their length; the code as written raises RuntimeError at `vals / sums` when there are triples but no generated self-loops, and the model instead returns the output shape for that input (the failure is stated by `RgcLayer.ReorderWithoutSelfLoopsMismatch`).
- RgcLayer.Layer.constructor: the class is built on the corrected guard `RgcLayer.InitError` of the second Finding, which requires num_nodes, num_relations and out_features; the as-written `or` guard also constructs a layer without num_nodes (`RgcLayer.GuardAdmitsMissingNodes`), and such a layer is not represented.
- `GraphConvolution` and the `Module.train()`/`eval()` toggle of `training` are not modelled.

## Findings

| source | as written | input that shows it | evidently intended | confidence | as-written member | corrected member |
|---|---|---|---|---|---|---|
| lp_utils.py:266-277 | with `verbose=False`, `rng` is the builtin `range`, which is then called with `desc=` and `leave=` keyword arguments | `eval(..., verbose=False)`, the default | iterate over `range(0, len, batch_size)` without the progress-bar arguments | not executed | Ranking.QuietEvalRaises | Ranking.Eval |
| torch_rgvae/layers/GCN_layers.py:28-29 | the three required-argument checks are joined with `or`, so the assertion fails only when all three are None | `num_nodes=None, num_relations=3, in_features=16, out_features=8` constructs a layer without a node count | reject construction when any of the three is missing, as the message says | not executed | RgcLayer.GuardAdmitsMissingNodes | RgcLayer.InitError |
| torch_rgvae/layers/GCN_layers.py:166-169 | `sums[-i:]` with `i = 0` is the whole tensor, so the reordered sums have 4n entries for 2n values | horizontal stacking with n > 0 triples and no generated self-loops | append only the last `i` entries (none when `i = 0`) | not executed | RgcLayer.ReorderWithoutSelfLoopsMismatch | RgcLayer.ReorderSums |
