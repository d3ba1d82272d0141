# Kaadugal decision-forest builder, modelled in Dafny

This project models `Kaadugal::DecisionForestBuilder`, which trains a
decision forest. It takes a data set of `SetSize` samples and a tree count
`NumTrees`. `RandomPartition` splits the sample indices into one subset per
tree. `Build` then asks each tree builder, in tree order, to grow a tree on
its subset. It appends every tree that trained to the forest and records
whether all of them did.

Files:

- `randomizer.dfy` (module `Randomizer`) covers the random source. It is
  reduced to its contract: `Shuffle` permutes an array in place, and
  `GetRandomElement` draws one element of a sequence. Each random decision is
  an arbitrary legal choice (`:|`). So everything proved holds for every
  outcome the generator could produce.
- `sampling.dfy` (module `Sampling`) covers the three sampling strategies of
  `RandomPartition`. Each is a method with the source's loops and counters.
  Specification functions (`UniformSubset`, `UniformPartitionOf`, `Range`,
  `Flatten`) state what the methods compute, and lemmas prove coverage,
  disjointness and subset sizes.
- `forest_builder.dfy` (module `ForestBuilder`) holds the class
  `DecisionForestBuilder`, with its constructor, `RandomPartition`, `Build`,
  `GetForest` and `DoneBuild`. It also has the specification of the training
  fold (`Outcomes`, `AllSucceeded`, `SuccessfulTrees`, `SuccessIndices`) and
  two client scenarios proved from the contracts alone.

Modelling choices:

- The data set is represented by its sample count.
- A `DataSetIndex` is represented by its sequence of sample indices. In the
  source each `DataSetIndex` keeps the data set it was created with
  (include/DecisionForestBuilder.hpp:49, 81, 94, 109), while `Build`
  replaces `m_DataSet` before its size check (line 125). An index sequence
  of the model does not say which data set it belongs to.
- Growing one tree is an oracle `train: (nat, seq<int>) -> Option<Tree>`.
  It gives the outcome of tree builder `k` trained on the subset it is given:
  `Some(tree)` when training succeeds and `None` when it fails.
- A ghost field `trainingLog` records which tree builders were called, in
  call order.
- The source fixes the sampling strategy to `Bagging` in a local variable
  (include/DecisionForestBuilder.hpp:55). The model takes the strategy as a
  constructor argument, a `const` field, so all three branches are verified.
- `Build` trains tree `i` on `m_DataSubsetsIdx[i]` for `i < NumTrees`. These
  are the first `NumTrees` entries of a list that `RandomPartition` only ever
  appends to. The model keeps that indexing. On a fresh instance these are
  exactly the subsets just sampled. On a second `Build` the contract shows
  that the trees are trained on the subsets of the first build.
- The source's constructor accepts any tree count; the model requires a
  positive one (see "Left out"). `m_isForestTrained` is a single boolean.

## Model

| member | source | states |
|---|---|---|
| `Randomizer.Shuffle` | include/DecisionForestBuilder.hpp:51 | the array after the shuffle is a permutation (equal multiset) of the array before |
| `Randomizer.GetRandomElement` | include/DecisionForestBuilder.hpp:107 | a draw with replacement returns an element of the non-empty index list |
| `Sampling.RangeOccurrences` | include/DecisionForestBuilder.hpp:44-46 | the initial index list holds every index of `0..SetSize-1` exactly once and nothing else |
| `Sampling.PermutationOfRange` | include/DecisionForestBuilder.hpp:44-51 | a permutation of `0..SetSize-1` (the shuffled `Indices`) has length `SetSize`, holds exactly the indices in `[0, SetSize)`, each once |
| `Sampling.UniformSubset` | include/DecisionForestBuilder.hpp:65-75 | tree `i` receives `SetSize / NumTrees` entries, plus one if `i < SetSize % NumTrees` |
| `Sampling.UniformSubsetByProducts` | include/DecisionForestBuilder.hpp:62-73 | with `SubsetSize = SetSize / NumSubsets`, block `i` spans `i*SubsetSize .. i*SubsetSize + SubsetSize` within the index list, `NumSubsets*SubsetSize` equals `SetSize - Remainder`, and subset `i` is that block plus the entry at `NumSubsets*SubsetSize + i` when `i < Remainder` |
| `Sampling.UniformSubsets` | include/DecisionForestBuilder.hpp:61-82 | the UniformPartition loops (with `RemCtr`) read only in-bounds entries, yield `NumTrees` subsets equal to the block-plus-leftover split, and together hold exactly the entries of `Indices` |
| `Sampling.UniformCoversAll` | include/DecisionForestBuilder.hpp:65-75 | concatenated as a multiset, the uniform subsets equal `Indices`: nothing dropped, nothing duplicated |
| `Sampling.UniformEachIndexOnce` | include/DecisionForestBuilder.hpp:65-81 | on a permutation of `0..SetSize-1`, every data set index occurs exactly once over all subsets, and no index is in two different subsets |
| `Sampling.UniformSizes` | include/DecisionForestBuilder.hpp:61-75 | every subset size is `floor(S/T)` or `ceil(S/T)`; a subset is larger iff its tree index is below `S mod T`; exactly `S mod T` subsets are larger; sizes never increase with the tree index and differ by at most one |
| `Sampling.UniformTenAmongThree` | include/DecisionForestBuilder.hpp:61-75 | ten samples among three trees give subsets of sizes 4, 3 and 3 |
| `Sampling.ConstantSubsets` | include/DecisionForestBuilder.hpp:88-95 | Constant yields `NumTrees` subsets, each its own shuffled copy: same length and same multiset as `Indices` |
| `Sampling.BaggingSubsets` | include/DecisionForestBuilder.hpp:101-110 | Bagging yields `NumTrees` subsets of `SetSize` draws each, every draw an element of `Indices` |
| `Sampling.SampleSubsets` | include/DecisionForestBuilder.hpp:57-111 | on a shuffled `0..SetSize-1`, each branch yields `NumTrees` subsets of its strategy's shape: a disjoint cover with floor/ceil sizes, permutations of the full range, or `SetSize` indices in `[0, SetSize)` |
| `ForestBuilder.MakeTreeBuilders` | include/DecisionForestBuilder.hpp:119-120 | the constructor's loop creates exactly `NumTrees` tree builders (none if it is not positive), all configured with the same parameters |
| `ForestBuilder.DecisionForestBuilder.constructor` | include/DecisionForestBuilder.hpp:115-121 | a new builder keeps the parameters, has `NumTrees` identically configured tree builders, an empty forest, no subsets and `m_isForestTrained` false |
| `ForestBuilder.DecisionForestBuilder.AllIndices` | include/DecisionForestBuilder.hpp:44-46 | the index vector is filled with exactly `0..SetSize-1` in order |
| `ForestBuilder.DecisionForestBuilder.RandomPartition` | include/DecisionForestBuilder.hpp:40-112 | `m_DataSetIndex` becomes the unshuffled `0..SetSize-1`; exactly `NumTrees` subsets are appended to `m_DataSubsetsIdx`, with the earlier ones untouched, shaped by the chosen strategy |
| `ForestBuilder.DecisionForestBuilder.Build` | include/DecisionForestBuilder.hpp:123-153 | if `NumTrees > Size` it returns false and changes only `m_DataSet`: no partition, no trainer call, forest unchanged; otherwise it partitions, calls every tree builder once in index order (even after a failure), appends the successful trees in tree order, and returns and records the AND of all outcomes |
| `ForestBuilder.DecisionForestBuilder.TrainTrees` | include/DecisionForestBuilder.hpp:132-147 | the training loop calls tree builders `0..NumTrees-1` once each in order, appends to the forest exactly the trees of the successful outcomes in tree order, and returns the `&=` fold of all outcomes |
| `ForestBuilder.DecisionForestBuilder.GetForest` | include/DecisionForestBuilder.hpp:155 | returns the forest as `Build` left it, partial after a failed build |
| `ForestBuilder.DecisionForestBuilder.DoneBuild` | include/DecisionForestBuilder.hpp:156 | returns the aggregate outcome recorded by the last `Build` that passed its precondition check |
| `ForestBuilder.AllSucceededIff` | include/DecisionForestBuilder.hpp:132-142 | the running `Success &=` fold is true iff every tree builder reported success |
| `ForestBuilder.SuccessfulTreesInOrder` | include/DecisionForestBuilder.hpp:138-147 | the appended trees are exactly those of the successful tree indices: strictly increasing indices, each appended tree is its builder's tree, and every successful index contributes |
| `ForestBuilder.ForestGrowth` | include/DecisionForestBuilder.hpp:138-151 | the forest grows by at most `NumTrees` trees, and by exactly `NumTrees` iff the build succeeded |
| `ForestBuilder.MiddleTreeFails` | include/DecisionForestBuilder.hpp:138-152 | with three trees whose tree 1 fails, `Build` and `DoneBuild` report false and the forest holds trees 0 and 2 in that order |
| `ForestBuilder.TooFewSamples` | include/DecisionForestBuilder.hpp:126-130 | ten trees on five samples: `Build` and `DoneBuild` report false, no subsets exist and the forest is empty |

## Left out

- Console diagnostics (lines 59, 86, 99, 128, 140, 146, 149) are output with no effect on state.
- Build timing is left out: `m_TimeStartedBuild`, `m_TimeFinishedBuild`, `GetCurrentEpochTime` and the conversion to seconds (lines 137, 148-149). They are an external clock and floating-point arithmetic.
- The generator behind `std::shuffle` and `Randomizer` is not modelled, so uniformity is not modelled. Only the permutation and element-of contracts are.
- How a single tree is grown (`DecisionTreeBuilder::Build`/`GetTree`) is left out. `DecisionForest`, `DataSetIndex` and `AbstractDataSet` are not part of this model beyond the oracle, a sequence of trees, index sequences and a sample count.
- Ownership (`shared_ptr`, `unique_ptr`) and the template parameters `T`, `S`, `R` are left out. The tree-growth settings in the parameters are an opaque type argument.
- `ForestBuilder.DecisionForestBuilder.constructor` requires a positive tree count. The source accepts any `int`, and UniformPartition would then divide by zero (line 62). The model does not describe a non-positive count: with zero trees the source's `Build` passes its size check and, under Constant or Bagging, returns true with no tree trained; with a negative count the `uint64_t` cast at line 126 makes `Build` always refuse.
- `ForestBuilder.DecisionForestBuilder.Build` treats the `uint64_t` cast at line 126 as the identity, which holds for a positive tree count. `SetSize` is unbounded, so the truncation of a sample count beyond the range of `int` at line 42 is not modelled. No other overflow is lost: whenever `SetSize` fits in an `int`, the indices `i*SubsetSize + j` and `NumSubsets*SubsetSize + RemCtr` read at lines 69 and 73 stay below `SetSize`, as `Sampling.UniformSubsetByProducts` states.
- The model does not track which data set a subset of sample indices belongs to. After a refused `Build`, `m_DataSetIndex` still refers to the previous data set; after an accepted second `Build`, trees `0..NumTrees-1` train (line 141) on subsets drawn from the first data set. The oracle `train` sees only the index sequence.
- `ForestBuilder.DecisionForestBuilder.GetForest` returns the forest as a value. The source returns a mutable reference to `m_Forest` (line 155), through which a caller can change the builder's forest; that aliasing is not modelled.
