/**
 * How DecisionForestBuilder::RandomPartition distributes the sample indices
 * 0 .. SetSize-1 of a data set among NumTrees trees. A subset of the data set
 * (a DataSetIndex) is represented by its index sequence.
 */
module Sampling {
  import Randomizer

  /** TreeDataSamplingType */
  datatype TreeDataSamplingType = UniformPartition | Constant | Bagging

  /** The index list 0, 1, ..., n-1 that RandomPartition starts from. */
  function Range(n: nat): (r: seq<int>)
    ensures |r| == n
    ensures forall k :: 0 <= k < n ==> r[k] == k
    ensures forall x :: x in r <==> 0 <= x < n
  {
    if n == 0 then [] else Range(n - 1) + [n - 1]
  }

  /** Every index of 0..n-1 occurs once in Range(n), and nothing else occurs. */
  lemma {:induction false} RangeOccurrences(n: nat)
    ensures forall x :: multiset(Range(n))[x] == if 0 <= x < n then 1 else 0
  {
    if n > 0 {
      RangeOccurrences(n - 1);
      assert Range(n) == Range(n - 1) + [n - 1];
      assert multiset(Range(n)) == multiset(Range(n - 1)) + multiset{n - 1};
    }
  }

  /** What being a permutation of 0..n-1 says about a sequence. */
  lemma PermutationOfRange(s: seq<int>, n: nat)
    requires multiset(s) == multiset(Range(n))
    ensures |s| == n
    ensures forall x :: x in s <==> 0 <= x < n
    ensures forall x :: 0 <= x < n ==> multiset(s)[x] == 1
  {
    RangeOccurrences(n);
    assert |s| == |multiset(s)| == |multiset(Range(n))| == n;
    forall x
      ensures x in s <==> 0 <= x < n
    {
      assert x in s <==> x in multiset(s);
    }
  }

  /** The subsets one after the other. */
  function Flatten(subsets: seq<seq<int>>): (flat: seq<int>)
  {
    if subsets == [] then [] else Flatten(subsets[..|subsets| - 1]) + subsets[|subsets| - 1]
  }

  /** Each subset is contained, as a multiset, in the concatenation. */
  lemma {:induction false} FlattenHoldsEach(subsets: seq<seq<int>>, i: nat)
    requires i < |subsets|
    ensures multiset(subsets[i]) <= multiset(Flatten(subsets))
  {
    var last := |subsets| - 1;
    if i < last {
      FlattenHoldsEach(subsets[..last], i);
    }
  }

  /** Two different subsets together are contained in the concatenation. */
  lemma {:induction false} FlattenHoldsPair(subsets: seq<seq<int>>, i: nat, j: nat)
    requires i < j < |subsets|
    ensures multiset(subsets[i]) + multiset(subsets[j]) <= multiset(Flatten(subsets))
  {
    var last := |subsets| - 1;
    if j < last {
      FlattenHoldsPair(subsets[..last], i, j);
    } else {
      FlattenHoldsEach(subsets[..last], i);
    }
  }

  // ---------------------------------------------------------------------
  // UniformPartition
  // ---------------------------------------------------------------------

  function Min(a: int, b: int): int { if a < b then a else b }

  lemma MulStep(k: nat, q: nat)
    ensures k * q + q == (k + 1) * q
  {
  }

  lemma MulMonotone(a: nat, b: nat, q: nat)
    requires a <= b
    ensures a * q <= b * q
  {
  }

  /** With q = n / t: the first k blocks of q entries end before the n % t
      leftovers, which end exactly at n. */
  lemma BlockBounds(n: nat, t: nat, k: nat)
    requires 0 < t && k <= t
    ensures k * (n / t) <= t * (n / t)
    ensures t * (n / t) + n % t == n
  {
    MulMonotone(k, t, n / t);
  }

  /** Where block i starts: i blocks of q entries come before it. */
  function BlockStart(q: nat, i: nat): (start: nat)
  {
    if i == 0 then 0 else BlockStart(q, i - 1) + q
  }

  lemma {:induction false} BlockStartIsProduct(q: nat, i: nat)
    ensures BlockStart(q, i) == i * q
  {
    if i > 0 {
      BlockStartIsProduct(q, i - 1);
      MulStep(i - 1, q);
    }
  }

  /** With q = n / t, the first i blocks end before the t blocks do, and those
      end where the n % t leftovers begin. */
  lemma BlocksFit(n: nat, t: nat, i: nat)
    requires 0 < t && i <= t
    ensures BlockStart(n / t, i) <= BlockStart(n / t, t) == n - n % t
  {
    BlockStartIsProduct(n / t, i);
    BlockStartIsProduct(n / t, t);
    BlockBounds(n, t, i);
  }

  /** Block i of a uniform split among t trees: the |indices| / t entries
      that follow the first i blocks. */
  function Block(indices: seq<int>, t: nat, i: nat): (block: seq<int>)
    requires i < t
    ensures |block| == |indices| / t
  {
    var q := |indices| / t;
    BlocksFit(|indices|, t, i + 1);
    indices[BlockStart(q, i) .. BlockStart(q, i) + q]
  }

  /** The leftover entry for tree i, if i < |indices| % t: the leftovers
      follow the t blocks and go one each to the first trees. */
  function Leftover(indices: seq<int>, t: nat, i: nat): (extra: seq<int>)
    requires i < t
    ensures |extra| == if i < |indices| % t then 1 else 0
  {
    if i < |indices| % t then [indices[|indices| - |indices| % t + i]] else []
  }

  /** Subset i of a uniform split of `indices` among t trees. */
  function UniformSubset(indices: seq<int>, t: nat, i: nat): (sub: seq<int>)
    requires i < t
    ensures |sub| == |indices| / t + (if i < |indices| % t then 1 else 0)
  {
    Block(indices, t, i) + Leftover(indices, t, i)
  }

  /** The whole uniform split, one subset per tree. */
  function UniformPartitionOf(indices: seq<int>, t: nat): (subsets: seq<seq<int>>)
    ensures |subsets| == t
  {
    seq(t, i requires 0 <= i < t => UniformSubset(indices, t, i))
  }

  /** The first k blocks of a uniform split, one after the other. */
  function Blocks(indices: seq<int>, t: nat, k: nat): (blocks: seq<int>)
    requires k <= t
  {
    if k == 0 then [] else Blocks(indices, t, k - 1) + Block(indices, t, k - 1)
  }

  /** The leftover entries handed out to the first k trees. */
  function Leftovers(indices: seq<int>, t: nat, k: nat): (leftovers: seq<int>)
    requires k <= t
  {
    if k == 0 then [] else Leftovers(indices, t, k - 1) + Leftover(indices, t, k - 1)
  }

  /** The first k blocks are the entries before block k. */
  lemma {:induction false} BlocksArePrefix(indices: seq<int>, t: nat, k: nat)
    requires 0 < t && k <= t
    ensures BlockStart(|indices| / t, k) <= |indices|
    ensures Blocks(indices, t, k) == indices[..BlockStart(|indices| / t, k)]
  {
    BlocksFit(|indices|, t, k);
    if k > 0 {
      var q, j := |indices| / t, k - 1;
      BlocksArePrefix(indices, t, j);
      assert indices[..BlockStart(q, k)] == indices[..BlockStart(q, j)] + Block(indices, t, j);
    }
  }

  /** The leftovers of the first k trees are the first min(k, rem) entries
      after the blocks. */
  lemma {:induction false} LeftoversAreTail(indices: seq<int>, t: nat, k: nat)
    requires 0 < t && k <= t
    ensures |indices| % t <= |indices|
    ensures Leftovers(indices, t, k)
         == indices[|indices| - |indices| % t .. |indices| - |indices| % t + Min(k, |indices| % t)]
  {
    if k > 0 {
      var j, rem := k - 1, |indices| % t;
      var start := |indices| - rem;
      LeftoversAreTail(indices, t, j);
      if j < rem {
        assert Min(k, rem) == j + 1 && Min(j, rem) == j;
        assert indices[start .. start + k] == indices[start .. start + j] + [indices[start + j]];
      } else {
        assert Min(k, rem) == rem == Min(j, rem);
      }
    }
  }

  /** All t blocks followed by all leftovers are the whole of `indices`. */
  lemma BlocksThenLeftovers(indices: seq<int>, t: nat)
    requires 0 < t
    ensures Blocks(indices, t, t) + Leftovers(indices, t, t) == indices
  {
    var n, rem := |indices|, |indices| % t;
    BlocksFit(n, t, t);
    BlocksArePrefix(indices, t, t);
    LeftoversAreTail(indices, t, t);
    assert Min(t, rem) == rem;
    assert indices[..n - rem] + indices[n - rem .. n] == indices;
  }

  /** Appending one more subset appends its entries to the concatenation. */
  lemma FlattenStep(subsets: seq<seq<int>>, j: nat)
    requires j < |subsets|
    ensures multiset(Flatten(subsets[..j + 1])) == multiset(Flatten(subsets[..j])) + multiset(subsets[j])
  {
    assert subsets[..j + 1][..j] == subsets[..j];
  }

  lemma UniformPartitionAt(indices: seq<int>, t: nat, j: nat)
    requires j < t
    ensures UniformPartitionOf(indices, t)[j] == Block(indices, t, j) + Leftover(indices, t, j)
  {
  }

  /** The first k subsets hold the first k blocks and the first min(k, rem)
      leftovers. */
  lemma {:induction false} UniformPrefixOccurrences(indices: seq<int>, t: nat, k: nat)
    requires 0 < t && k <= t
    ensures multiset(Flatten(UniformPartitionOf(indices, t)[..k]))
         == multiset(Blocks(indices, t, k)) + multiset(Leftovers(indices, t, k))
  {
    if k == 0 {
      assert UniformPartitionOf(indices, t)[..0] == [];
      assert Blocks(indices, t, 0) == [];
      assert Leftovers(indices, t, 0) == [];
    } else {
      var j := k - 1;
      UniformPrefixOccurrences(indices, t, j);
      FlattenStep(UniformPartitionOf(indices, t), j);
      UniformPartitionAt(indices, t, j);
    }
  }

  /** UniformPartition loses and duplicates nothing: the subsets together hold
      exactly the entries of `indices`. */
  lemma UniformCoversAll(indices: seq<int>, t: nat)
    requires 0 < t
    ensures multiset(Flatten(UniformPartitionOf(indices, t))) == multiset(indices)
  {
    var parts := UniformPartitionOf(indices, t);
    UniformPrefixOccurrences(indices, t, t);
    assert parts[..t] == parts;
    BlocksThenLeftovers(indices, t);
  }

  /** Subsets whose concatenation holds an entry at most once never share it. */
  lemma SharedEntryCountsTwice(subsets: seq<seq<int>>, i: nat, j: nat, x: int)
    requires i < j < |subsets|
    requires multiset(Flatten(subsets))[x] <= 1
    requires x in subsets[i]
    ensures x !in subsets[j]
  {
    FlattenHoldsPair(subsets, i, j);
    assert multiset(subsets[i])[x] >= 1;
  }

  /** Given a permutation of 0..n-1, every data set index lands in exactly one
      subset: once in the concatenation, and never in two different subsets. */
  lemma UniformEachIndexOnce(indices: seq<int>, n: nat, t: nat)
    requires 0 < t
    requires multiset(indices) == multiset(Range(n))
    ensures forall x :: multiset(Flatten(UniformPartitionOf(indices, t)))[x] == if 0 <= x < n then 1 else 0
    ensures forall i, j, x :: 0 <= i < j < t && x in UniformPartitionOf(indices, t)[i]
              ==> x !in UniformPartitionOf(indices, t)[j]
  {
    var parts := UniformPartitionOf(indices, t);
    UniformCoversAll(indices, t);
    RangeOccurrences(n);
    assert forall x :: multiset(Flatten(parts))[x] <= 1;
    forall i, j, x | 0 <= i < j < t && x in parts[i]
      ensures x !in parts[j]
    {
      SharedEntryCountsTwice(parts, i, j, x);
    }
  }

  /** The integers 0..n-1 as a set have n elements. */
  lemma {:induction false} RangeSetCardinality(n: nat)
    ensures |set x | x in Range(n)| == n
  {
    if n > 0 {
      var m := n - 1;
      RangeSetCardinality(m);
      assert (set x | x in Range(n)) == (set x | x in Range(m)) + {m};
    }
  }

  /** Division with remainder has one answer. */
  lemma DivisionUnique(n: nat, t: nat, q: nat, r: nat)
    requires 0 < t && r < t && n == q * t + r
    ensures n / t == q && n % t == r
  {
    var q', r' := n / t, n % t;
    assert n == q' * t + r';
    if q' < q {
      MulMonotone(q' + 1, q, t);
      MulStep(q', t);
    } else if q < q' {
      MulMonotone(q + 1, q', t);
      MulStep(q, t);
    }
  }

  /** Rounding n / t up gives one more than rounding down, unless t divides n. */
  lemma CeilingDivision(n: nat, t: nat)
    requires 0 < t
    ensures (n + t - 1) / t == n / t + (if n % t == 0 then 0 else 1)
  {
    var q, r := n / t, n % t;
    assert n == q * t + r;
    if r == 0 {
      DivisionUnique(n + t - 1, t, q, t - 1);
    } else {
      MulStep(q, t);
      DivisionUnique(n + t - 1, t, q + 1, r - 1);
    }
  }

  /** Sizes of a uniform split of n entries among t trees: each is floor(n/t)
      or ceil(n/t); exactly the first n % t trees get the larger size; sizes
      never increase along the trees and differ by at most one. */
  lemma UniformSizes(indices: seq<int>, t: nat)
    requires 0 < t
    ensures forall i :: 0 <= i < t ==>
              (|UniformPartitionOf(indices, t)[i]| == |indices| / t
               || |UniformPartitionOf(indices, t)[i]| == (|indices| + t - 1) / t)
    ensures forall i :: 0 <= i < t ==>
              (|UniformPartitionOf(indices, t)[i]| > |indices| / t <==> i < |indices| % t)
    ensures |set i | 0 <= i < t && |UniformPartitionOf(indices, t)[i]| > |indices| / t| == |indices| % t
    ensures forall i, j :: 0 <= i <= j < t ==>
              |UniformPartitionOf(indices, t)[j]| <= |UniformPartitionOf(indices, t)[i]|
                                                <= |UniformPartitionOf(indices, t)[j]| + 1
  {
    var n := |indices|;
    var parts := UniformPartitionOf(indices, t);
    CeilingDivision(n, t);
    assert (set i | 0 <= i < t && |parts[i]| > n / t) == (set x | x in Range(n % t));
    RangeSetCardinality(n % t);
  }

  /** Subset i in the source's own index arithmetic: block i starts at
      i * SubsetSize, and leftover i sits at NumSubsets * SubsetSize + i. */
  lemma UniformSubsetByProducts(indices: seq<int>, t: nat, i: nat, start: int, leftoverStart: int)
    requires i < t
    requires start == i * (|indices| / t) && leftoverStart == t * (|indices| / t)
    ensures 0 <= start && start + |indices| / t <= |indices|
    ensures leftoverStart == |indices| - |indices| % t
    ensures UniformSubset(indices, t, i)
         == indices[start .. start + |indices| / t]
          + (if i < |indices| % t then [indices[leftoverStart + i]] else [])
  {
    BlocksFit(|indices|, t, i + 1);
    BlockStartIsProduct(|indices| / t, i);
    BlockBounds(|indices|, t, t);
  }

  /** Scenario: ten samples among three trees give subsets of 4, 3 and 3. */
  lemma UniformTenAmongThree(indices: seq<int>)
    requires |indices| == 10
    ensures |UniformPartitionOf(indices, 3)[0]| == 4
    ensures |UniformPartitionOf(indices, 3)[1]| == 3
    ensures |UniformPartitionOf(indices, 3)[2]| == 3
  {
  }

  /** The UniformPartition branch of RandomPartition: block i of SubsetSize
      entries for tree i, then, while the counter RemCtr has not reached the
      remainder, one leftover entry from the tail of `indices`. */
  method UniformSubsets(indices: seq<int>, numSubsets: nat) returns (subsets: seq<seq<int>>)
    requires 0 < numSubsets
    ensures subsets == UniformPartitionOf(indices, numSubsets)
    ensures multiset(Flatten(subsets)) == multiset(indices)
  {
    var setSize := |indices|;
    var subsetSize := setSize / numSubsets;
    var remainder := setSize % numSubsets;
    var remCtr := 0;
    subsets := [];
    for i := 0 to numSubsets
      invariant |subsets| == i
      invariant remCtr == Min(i, remainder)
      invariant forall k :: 0 <= k < i ==> subsets[k] == UniformSubset(indices, numSubsets, k)
    {
      var start, leftoverStart := i * subsetSize, numSubsets * subsetSize;
      UniformSubsetByProducts(indices, numSubsets, i, start, leftoverStart);
      var subIdx := [];
      for j := 0 to subsetSize
        invariant subIdx == indices[start .. start + j]
      {
        subIdx := subIdx + [indices[start + j]];
      }
      if remCtr != remainder {
        subIdx := subIdx + [indices[leftoverStart + remCtr]];
        remCtr := remCtr + 1;
      }
      subsets := subsets + [subIdx];
    }
    assert subsets == UniformPartitionOf(indices, numSubsets);
    UniformCoversAll(indices, numSubsets);
  }

  // ---------------------------------------------------------------------
  // Constant
  // ---------------------------------------------------------------------

  /** The Constant branch of RandomPartition: every tree gets its own shuffled
      copy of `indices`. */
  method ConstantSubsets(indices: seq<int>, numSubsets: nat) returns (subsets: seq<seq<int>>)
    ensures |subsets| == numSubsets
    ensures forall i :: 0 <= i < numSubsets ==>
              |subsets[i]| == |indices| && multiset(subsets[i]) == multiset(indices)
  {
    subsets := [];
    for i := 0 to numSubsets
      invariant |subsets| == i
      invariant forall k :: 0 <= k < i ==>
                  |subsets[k]| == |indices| && multiset(subsets[k]) == multiset(indices)
    {
      var subIdx := new int[|indices|](k => if 0 <= k < |indices| then indices[k] else 0);
      assert subIdx[..] == indices;
      Randomizer.Shuffle(subIdx);
      assert |subIdx[..]| == |multiset(subIdx[..])| == |multiset(indices)| == |indices|;
      subsets := subsets + [subIdx[..]];
    }
  }

  // ---------------------------------------------------------------------
  // Bagging
  // ---------------------------------------------------------------------

  /** The Bagging branch of RandomPartition: every tree gets |indices| draws,
      with replacement, from `indices`. */
  method BaggingSubsets(indices: seq<int>, numSubsets: nat) returns (subsets: seq<seq<int>>)
    ensures |subsets| == numSubsets
    ensures forall i :: 0 <= i < numSubsets ==>
              |subsets[i]| == |indices| && forall x :: x in subsets[i] ==> x in indices
  {
    var subsetSize := |indices|;
    subsets := [];
    for i := 0 to numSubsets
      invariant |subsets| == i
      invariant forall k :: 0 <= k < i ==>
                  |subsets[k]| == subsetSize && forall x :: x in subsets[k] ==> x in indices
    {
      var subIdx := [];
      for j := 0 to subsetSize
        invariant |subIdx| == j
        invariant forall x :: x in subIdx ==> x in indices
      {
        var e := Randomizer.GetRandomElement(indices);
        subIdx := subIdx + [e];
      }
      subsets := subsets + [subIdx];
    }
  }

  // ---------------------------------------------------------------------
  // What each strategy produces from the data set 0..setSize-1
  // ---------------------------------------------------------------------

  /** Disjoint cover of 0..setSize-1, sizes floor or ceil, larger ones first. */
  ghost predicate IsUniformPartition(subsets: seq<seq<int>>, setSize: nat)
  {
    && |subsets| > 0
    && (forall i :: 0 <= i < |subsets| ==>
          |subsets[i]| == setSize / |subsets| + (if i < setSize % |subsets| then 1 else 0))
    && multiset(Flatten(subsets)) == multiset(Range(setSize))
  }

  /** Every subset is a permutation of 0..setSize-1. */
  ghost predicate IsConstantSampling(subsets: seq<seq<int>>, setSize: nat)
  {
    forall i :: 0 <= i < |subsets| ==> multiset(subsets[i]) == multiset(Range(setSize))
  }

  /** Every subset has setSize entries, each a valid index of the data set. */
  ghost predicate IsBaggingSampling(subsets: seq<seq<int>>, setSize: nat)
  {
    forall i :: 0 <= i < |subsets| ==>
      |subsets[i]| == setSize && forall x :: x in subsets[i] ==> 0 <= x < setSize
  }

  ghost predicate MeetsSampling(samplingType: TreeDataSamplingType, subsets: seq<seq<int>>, setSize: nat)
  {
    match samplingType
    case UniformPartition => IsUniformPartition(subsets, setSize)
    case Constant => IsConstantSampling(subsets, setSize)
    case Bagging => IsBaggingSampling(subsets, setSize)
  }

  /** Run on a shuffled 0..setSize-1, each branch produces numSubsets subsets
      with its strategy's shape. */
  method SampleSubsets(samplingType: TreeDataSamplingType, shuffled: seq<int>, setSize: nat, numSubsets: nat)
    returns (subsets: seq<seq<int>>)
    requires 0 < numSubsets
    requires multiset(shuffled) == multiset(Range(setSize))
    ensures |subsets| == numSubsets
    ensures MeetsSampling(samplingType, subsets, setSize)
  {
    PermutationOfRange(shuffled, setSize);
    match samplingType
    case UniformPartition =>
      subsets := UniformSubsets(shuffled, numSubsets);
      UniformSizes(shuffled, numSubsets);
    case Constant =>
      subsets := ConstantSubsets(shuffled, numSubsets);
    case Bagging =>
      subsets := BaggingSubsets(shuffled, numSubsets);
  }
}
