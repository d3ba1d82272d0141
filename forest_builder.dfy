/**
 * DecisionForestBuilder: trains one decision tree per data subset and
 * collects the trees that trained into a forest.
 *
 * The data set is represented by its sample count. Growing a single tree
 * (DecisionTreeBuilder::Build and GetTree) is an oracle `train`: given a tree
 * index and that tree's subset of sample indices it yields Some(tree) when
 * training succeeds and None when it fails.
 */
module ForestBuilder {
  import opened Sampling

  datatype Option<T> = None | Some(value: T)

  /** ForestBuilderParameters: the tree count and the tree-growth settings,
      which this component only forwards to every tree builder. */
  datatype ForestBuilderParameters<Growth> = ForestBuilderParameters(numTrees: int, growth: Growth)

  /** A DecisionTreeBuilder as the forest builder sees it: the parameters it
      was configured with. */
  datatype DecisionTreeBuilder<Growth> = DecisionTreeBuilder(parameters: ForestBuilderParameters<Growth>)

  /** The constructor's loop: one tree builder per tree, all with the same
      parameters (none for a non-positive tree count). */
  method MakeTreeBuilders<Growth>(parameters: ForestBuilderParameters<Growth>)
    returns (builders: seq<DecisionTreeBuilder<Growth>>)
    ensures |builders| == if parameters.numTrees > 0 then parameters.numTrees else 0
    ensures forall k :: 0 <= k < |builders| ==> builders[k] == DecisionTreeBuilder(parameters)
  {
    builders := [];
    var i := 0;
    while i < parameters.numTrees
      invariant 0 <= i
      invariant |builders| == i
      invariant parameters.numTrees > 0 ==> i <= parameters.numTrees
      invariant parameters.numTrees <= 0 ==> i == 0
      invariant forall k :: 0 <= k < i ==> builders[k] == DecisionTreeBuilder(parameters)
    {
      builders := builders + [DecisionTreeBuilder(parameters)];
      i := i + 1;
    }
  }

  // ---------------------------------------------------------------------
  // The outcome of training: specification functions
  // ---------------------------------------------------------------------

  /** The outcome of tree builder k trained on subsets[k], for every k in order. */
  function Outcomes<Tree>(train: (nat, seq<int>) -> Option<Tree>, subsets: seq<seq<int>>)
    : (outcomes: seq<Option<Tree>>)
    ensures |outcomes| == |subsets|
    ensures forall k :: 0 <= k < |subsets| ==> outcomes[k] == train(k, subsets[k])
  {
    seq(|subsets|, k requires 0 <= k < |subsets| => train(k, subsets[k]))
  }

  /** The running `Success &= TreeSuccess` over the outcomes. */
  function AllSucceeded<Tree>(outcomes: seq<Option<Tree>>): (succeeded: bool)
  {
    if outcomes == [] then true
    else AllSucceeded(outcomes[..|outcomes| - 1]) && outcomes[|outcomes| - 1].Some?
  }

  /** The trees AddTree appends: those of the successful outcomes, in order. */
  function SuccessfulTrees<Tree>(outcomes: seq<Option<Tree>>): (trees: seq<Tree>)
  {
    if outcomes == [] then []
    else
      var last := outcomes[|outcomes| - 1];
      SuccessfulTrees(outcomes[..|outcomes| - 1]) + (if last.Some? then [last.value] else [])
  }

  /** The tree indices whose training succeeded, in increasing order. */
  function SuccessIndices<Tree>(outcomes: seq<Option<Tree>>): (successes: seq<nat>)
  {
    if outcomes == [] then []
    else
      var last := |outcomes| - 1;
      SuccessIndices(outcomes[..last]) + (if outcomes[last].Some? then [last] else [])
  }

  /** Training one more tree extends the fold by that tree's outcome. */
  lemma TrainingStep<Tree>(train: (nat, seq<int>) -> Option<Tree>, subsets: seq<seq<int>>, i: nat)
    requires i < |subsets|
    ensures var outcome := train(i, subsets[i]);
      && AllSucceeded(Outcomes(train, subsets[..i + 1]))
         == (AllSucceeded(Outcomes(train, subsets[..i])) && outcome.Some?)
      && SuccessfulTrees(Outcomes(train, subsets[..i + 1]))
         == SuccessfulTrees(Outcomes(train, subsets[..i])) + (if outcome.Some? then [outcome.value] else [])
  {
    assert Outcomes(train, subsets[..i + 1])[..i] == Outcomes(train, subsets[..i]);
  }

  /** The fold succeeds exactly when every single training succeeded. */
  lemma {:induction false} AllSucceededIff<Tree>(outcomes: seq<Option<Tree>>)
    ensures AllSucceeded(outcomes) <==> forall k :: 0 <= k < |outcomes| ==> outcomes[k].Some?
  {
    if outcomes != [] {
      var init := outcomes[..|outcomes| - 1];
      AllSucceededIff(init);
      assert forall k :: 0 <= k < |init| ==> init[k] == outcomes[k];
    }
  }

  /** SuccessIndices lists in-range tree indices in strictly increasing order. */
  lemma {:induction false} SuccessIndicesBounded<Tree>(outcomes: seq<Option<Tree>>)
    ensures forall m :: 0 <= m < |SuccessIndices(outcomes)| ==> SuccessIndices(outcomes)[m] < |outcomes|
    ensures forall m, p :: 0 <= m < p < |SuccessIndices(outcomes)| ==>
              SuccessIndices(outcomes)[m] < SuccessIndices(outcomes)[p]
  {
    if outcomes != [] {
      SuccessIndicesBounded(outcomes[..|outcomes| - 1]);
    }
  }

  /** Entry m of SuccessfulTrees is the tree at the m-th successful index. */
  lemma {:induction false} SuccessPairs<Tree>(outcomes: seq<Option<Tree>>)
    ensures |SuccessfulTrees(outcomes)| == |SuccessIndices(outcomes)|
    ensures forall m :: 0 <= m < |SuccessIndices(outcomes)| ==>
              SuccessIndices(outcomes)[m] < |outcomes|
              && outcomes[SuccessIndices(outcomes)[m]] == Some(SuccessfulTrees(outcomes)[m])
  {
    if outcomes != [] {
      var last := |outcomes| - 1;
      var init := outcomes[..last];
      SuccessPairs(init);
      var idx, trees := SuccessIndices(outcomes), SuccessfulTrees(outcomes);
      forall m | 0 <= m < |idx|
        ensures idx[m] < |outcomes| && outcomes[idx[m]] == Some(trees[m])
      {
        if m < |SuccessIndices(init)| {
          assert idx[m] == SuccessIndices(init)[m];
          assert trees[m] == SuccessfulTrees(init)[m];
          assert init[idx[m]] == outcomes[idx[m]];
        }
      }
    }
  }

  /** A tree index is among SuccessIndices exactly when its training succeeded. */
  lemma {:induction false} SuccessIndicesComplete<Tree>(outcomes: seq<Option<Tree>>)
    ensures forall k :: 0 <= k < |outcomes| ==> (outcomes[k].Some? <==> k in SuccessIndices(outcomes))
  {
    if outcomes != [] {
      var last := |outcomes| - 1;
      var init := outcomes[..last];
      SuccessIndicesComplete(init);
      SuccessIndicesBounded(init);
      assert forall k :: 0 <= k < |init| ==> init[k] == outcomes[k];
      assert last !in SuccessIndices(init);
    }
  }

  /** SuccessfulTrees keeps exactly the successful outcomes, in tree order:
      entry m of the result is the tree of the m-th successful index, the
      indices increase strictly, and every successful index is among them. */
  lemma {:induction false} SuccessfulTreesInOrder<Tree>(outcomes: seq<Option<Tree>>)
    ensures |SuccessfulTrees(outcomes)| == |SuccessIndices(outcomes)|
    ensures forall m :: 0 <= m < |SuccessIndices(outcomes)| ==>
              SuccessIndices(outcomes)[m] < |outcomes|
              && outcomes[SuccessIndices(outcomes)[m]] == Some(SuccessfulTrees(outcomes)[m])
    ensures forall m, p :: 0 <= m < p < |SuccessIndices(outcomes)| ==>
              SuccessIndices(outcomes)[m] < SuccessIndices(outcomes)[p]
    ensures forall k :: 0 <= k < |outcomes| ==> (outcomes[k].Some? <==> k in SuccessIndices(outcomes))
  {
    SuccessPairs(outcomes);
    SuccessIndicesBounded(outcomes);
    SuccessIndicesComplete(outcomes);
  }

  /** The forest gains one tree per successful training, so it gains a tree
      for every tree index exactly when every training succeeded. */
  lemma {:induction false} ForestGrowth<Tree>(outcomes: seq<Option<Tree>>)
    ensures |SuccessfulTrees(outcomes)| <= |outcomes|
    ensures |SuccessfulTrees(outcomes)| == |outcomes| <==> AllSucceeded(outcomes)
  {
    if outcomes != [] {
      ForestGrowth(outcomes[..|outcomes| - 1]);
    }
  }

  // ---------------------------------------------------------------------
  // The builder
  // ---------------------------------------------------------------------

  class DecisionForestBuilder<Tree, Growth(==)> {
    const parameters: ForestBuilderParameters<Growth>
    /** The sampling strategy RandomPartition uses. */
    const samplingType: TreeDataSamplingType
    const treeBuilders: seq<DecisionTreeBuilder<Growth>>

    /** m_DataSet, by its sample count. */
    var dataSetSize: nat
    /** m_DataSetIndex: every sample of the data set, in order. */
    var dataSetIndex: seq<int>
    /** m_DataSubsetsIdx: one subset per tree, appended by RandomPartition. */
    var dataSubsetsIdx: seq<seq<int>>
    var forest: seq<Tree>
    var isForestTrained: bool
    /** The tree indices whose builder was asked to train, in call order. */
    ghost var trainingLog: seq<int>

    ghost predicate Valid()
    {
      && parameters.numTrees > 0
      && |treeBuilders| == parameters.numTrees
      && forall k :: 0 <= k < |treeBuilders| ==> treeBuilders[k].parameters == parameters
    }

    constructor (parameters: ForestBuilderParameters<Growth>, samplingType: TreeDataSamplingType)
      requires parameters.numTrees > 0
      ensures Valid()
      ensures this.parameters == parameters && this.samplingType == samplingType
      ensures dataSubsetsIdx == [] && forest == [] && !isForestTrained && trainingLog == []
    {
      this.parameters := parameters;
      this.samplingType := samplingType;
      var builders := MakeTreeBuilders(parameters);
      treeBuilders := builders;
      dataSetSize := 0;
      dataSetIndex := [];
      dataSubsetsIdx := [];
      forest := [];
      isForestTrained := false;
      trainingLog := [];
    }

    /** Lists the samples 0..SetSize-1, shuffles them, and appends one subset
        per tree, shaped by the sampling strategy. */
    method RandomPartition()
      requires Valid()
      modifies this`dataSetIndex, this`dataSubsetsIdx
      ensures dataSetIndex == Range(dataSetSize)
      ensures |dataSubsetsIdx| == |old(dataSubsetsIdx)| + parameters.numTrees
      ensures dataSubsetsIdx[..|old(dataSubsetsIdx)|] == old(dataSubsetsIdx)
      ensures MeetsSampling(samplingType, dataSubsetsIdx[|old(dataSubsetsIdx)|..], dataSetSize)
    {
      var setSize := dataSetSize;
      var indices := AllIndices(setSize);
      dataSetIndex := indices[..];
      Randomizer.Shuffle(indices);
      var subsets := SampleSubsets(samplingType, indices[..], setSize, parameters.numTrees);
      ghost var before := dataSubsetsIdx;
      dataSubsetsIdx := dataSubsetsIdx + subsets;
      assert dataSubsetsIdx[|before|..] == subsets;
    }

    /** The vector of all sample indices 0..setSize-1, filled in order. */
    static method AllIndices(setSize: nat) returns (indices: array<int>)
      ensures fresh(indices)
      ensures indices[..] == Range(setSize)
    {
      indices := new int[setSize];
      for i := 0 to setSize
        invariant indices[..i] == Range(i)
      {
        indices[i] := i;
        assert indices[..i + 1] == indices[..i] + [i];
      }
      assert indices[..] == indices[..setSize];
    }

    /** Trains the forest on a data set of `setSize` samples. */
    method Build(setSize: nat, train: (nat, seq<int>) -> Option<Tree>) returns (success: bool)
      requires Valid()
      modifies this
      ensures dataSetSize == setSize
      ensures parameters.numTrees > setSize ==>
                && !success
                && dataSetIndex == old(dataSetIndex)
                && dataSubsetsIdx == old(dataSubsetsIdx)
                && forest == old(forest)
                && isForestTrained == old(isForestTrained)
                && trainingLog == old(trainingLog)
      ensures parameters.numTrees <= setSize ==>
                && dataSetIndex == Range(setSize)
                && |dataSubsetsIdx| == |old(dataSubsetsIdx)| + parameters.numTrees
                && dataSubsetsIdx[..|old(dataSubsetsIdx)|] == old(dataSubsetsIdx)
                && MeetsSampling(samplingType, dataSubsetsIdx[|old(dataSubsetsIdx)|..], setSize)
                && trainingLog == old(trainingLog) + Range(parameters.numTrees)
                && forest == old(forest) + SuccessfulTrees(Outcomes(train, dataSubsetsIdx[..parameters.numTrees]))
                && success == AllSucceeded(Outcomes(train, dataSubsetsIdx[..parameters.numTrees]))
                && isForestTrained == success
    {
      dataSetSize := setSize;
      if parameters.numTrees > dataSetSize {
        return false;
      }
      RandomPartition();
      success := TrainTrees(train);
      isForestTrained := success;
    }

    /** Build's training loop: tree builder i trains on subset i, in index
        order and even after a failure; each tree that trained is appended
        and the outcomes are folded with `&=`. */
    method TrainTrees(train: (nat, seq<int>) -> Option<Tree>) returns (success: bool)
      requires Valid() && |dataSubsetsIdx| >= parameters.numTrees
      modifies this`forest, this`trainingLog
      ensures trainingLog == old(trainingLog) + Range(parameters.numTrees)
      ensures forest == old(forest) + SuccessfulTrees(Outcomes(train, dataSubsetsIdx[..parameters.numTrees]))
      ensures success == AllSucceeded(Outcomes(train, dataSubsetsIdx[..parameters.numTrees]))
    {
      success := true;
      ghost var subsets := dataSubsetsIdx[..parameters.numTrees];
      var nTreeBuilders := |treeBuilders|;
      for i := 0 to nTreeBuilders
        invariant trainingLog == old(trainingLog) + Range(i)
        invariant forest == old(forest) + SuccessfulTrees(Outcomes(train, subsets[..i]))
        invariant success == AllSucceeded(Outcomes(train, subsets[..i]))
      {
        assert dataSubsetsIdx[i] == subsets[i];
        var outcome := train(i, dataSubsetsIdx[i]);
        trainingLog := trainingLog + [i];
        var treeSuccess := outcome.Some?;
        success := success && treeSuccess;
        if treeSuccess {
          forest := forest + [outcome.value];
        }
        TrainingStep(train, subsets, i);
      }
      assert subsets[..nTreeBuilders] == subsets;
    }

    /** GetForest: the trees Build appended, possibly only some of them after
        a failed build. */
    method GetForest() returns (trees: seq<Tree>)
      ensures trees == forest
    {
      trees := forest;
    }

    /** DoneBuild: whether the last Build trained every tree. */
    method DoneBuild() returns (done: bool)
      ensures done == isForestTrained
    {
      done := isForestTrained;
    }
  }

  // ---------------------------------------------------------------------
  // Scenarios, proved from the contracts above
  // ---------------------------------------------------------------------

  /** Three trees, the builder of tree 1 fails: Build reports failure and the
      forest holds the trees of 0 and 2, in that order. */
  method MiddleTreeFails(setSize: nat, samplingType: TreeDataSamplingType)
    returns (built: bool, done: bool, trees: seq<int>)
    requires setSize >= 3
    ensures !built && !done
    ensures trees == [100, 102]
  {
    var builder := new DecisionForestBuilder<int, ()>(ForestBuilderParameters(3, ()), samplingType);
    var train := (k: nat, subset: seq<int>) => if k == 1 then None else Some(100 + k);
    built := builder.Build(setSize, train);
    done := builder.DoneBuild();
    trees := builder.GetForest();
    var outcomes := Outcomes(train, builder.dataSubsetsIdx[..3]);
    assert outcomes == [Some(100), None, Some(102)];
    assert outcomes[..2] == [Some(100), None];
    assert outcomes[..1] == [Some(100)];
    assert outcomes[..0] == [];
    assert SuccessfulTrees(outcomes[..1]) == [100];
    assert SuccessfulTrees(outcomes[..2]) == [100];
    assert SuccessfulTrees(outcomes) == [100, 102];
  }

  /** More trees than samples: Build refuses, nothing is sampled or trained,
      and the forest stays empty. */
  method TooFewSamples(samplingType: TreeDataSamplingType)
    returns (built: bool, done: bool, trees: seq<int>, subsetCount: nat)
    ensures !built && !done && trees == [] && subsetCount == 0
  {
    var builder := new DecisionForestBuilder<int, ()>(ForestBuilderParameters(10, ()), samplingType);
    built := builder.Build(5, (k: nat, subset: seq<int>) => Some(k));
    done := builder.DoneBuild();
    trees := builder.GetForest();
    subsetCount := |builder.dataSubsetsIdx|;
  }
}
