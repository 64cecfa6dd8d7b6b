/** The free functions of `load_atoms.manipulations` and
    `load_atoms.logic.manipulations`: `filter_by` and `cross_validate_split`.
    Both files define the same two functions over their own container, so
    the logic is modelled once, on lists of structures, and wrapped for each
    container. `np.random.RandomState(seed).shuffle(np.arange(n))` is the
    permutation `perm`.
 */
module Manipulations {
  import opened Wrappers
  import opened Values
  import opened Seqs
  import opened Structures
  import Arith
  import Utils
  import AtomsDatasets
  import LegacyDatasets
  import LogicDatasets

  // ---------------------------------------------------------------------
  // filter_by

  /** `filter_by(dataset, *functions, **info_kwargs)` of
      `load_atoms.manipulations`: `AtomsDataset.from_structures` of the
      structures passing the filter, with the constructor's warnings. */
  function FilterBy(ss: seq<Structure>, preds: seq<Structure -> bool>, kwargs: seq<(string, Value)>): (r: (LegacyDatasets.Dataset, seq<string>))
    ensures r.0.description.None?
    ensures forall s :: s in r.0.structures <==> s in ss && Passes(s, preds, kwargs)
    ensures r.1 == LegacyDatasets.ConstructionWarnings(r.0.structures)
  {
    var kept := Kept(ss, preds, kwargs);
    (LegacyDatasets.Dataset(kept, None), LegacyDatasets.ConstructionWarnings(kept))
  }

  /** `filter_by` of `load_atoms.logic.manipulations`, which stops at the
      first failing function of each structure; the kept structures are the same. */
  function LogicFilterBy(ss: seq<Structure>, preds: seq<Structure -> bool>, kwargs: seq<(string, Value)>): (r: (LogicDatasets.Dataset, seq<string>))
    ensures r.0.description.None?
    ensures r.0.structures == FilterBy(ss, preds, kwargs).0.structures
  {
    LogicDatasets.FromStructures(Kept(ss, preds, kwargs))
  }

  /** Every version of `filter_by` keeps the same structures in the same
      order and emits the same warnings: the older ones agree with the method
      of the newer container, which indexes with the positions of the passing
      structures. */
  lemma FilterByAgrees(ss: seq<Structure>, preds: seq<Structure -> bool>, kwargs: seq<(string, Value)>)
    ensures var newer := AtomsDatasets.FilterBy(AtomsDatasets.InMemory(ss, None), preds, kwargs);
            && FilterBy(ss, preds, kwargs).0.structures == AtomsDatasets.Iter(newer.0)
            && LogicFilterBy(ss, preds, kwargs).0.structures == AtomsDatasets.Iter(newer.0)
            && FilterBy(ss, preds, kwargs).0.structures == Select(ss, Passing(ss, preds, kwargs))
            && FilterBy(ss, preds, kwargs).1 == newer.1
  {
    AtomsDatasets.FilterByKeeps(AtomsDatasets.InMemory(ss, None), preds, kwargs);
    PassingSelectsKept(ss, preds, kwargs);
  }

  // ---------------------------------------------------------------------
  // cross_validate_split

  /** `(xs[:-t], xs[-t:])` for any integer `t`, with Python's clamping of
      slice bounds. */
  function TailSplit<T>(xs: seq<T>, t: int): (r: (seq<T>, seq<T>))
    ensures r.0 + r.1 == xs
    ensures 0 < t <= |xs| ==> |r.1| == t && |r.0| == |xs| - t
    ensures t == 0 || t >= |xs| ==> r.0 == [] && r.1 == xs
  {
    var n := |xs|;
    var cut := if -t >= 0 then (if -t < n then -t else n)
               else (if n - t > 0 then n - t else 0);
    assert xs == xs[..cut] + xs[cut..];
    (xs[..cut], xs[cut..])
  }

  /** The positions `cross_validate_split` puts in train and test: the
      shuffled positions rolled by `fold * n // k`, the last `n_test` of them
      (by default `n // k`) in test. A zero `k` divides by zero. */
  function CrossValidatePositions(n: nat, perm: seq<nat>, fold: int, k: int, nTest: Option<int>): (r: Result<(seq<nat>, seq<nat>)>)
    requires IsPermutation(perm, n)
    ensures r.Err? <==> k == 0
    ensures r.Err? ==> r.error.ZeroDivisionError?
    ensures r.Ok? ==> r.value.0 + r.value.1 == Roll(perm, Arith.FloorDiv(fold * n, k))
  {
    if k == 0 then Err(ZeroDivisionError("integer division or modulo by zero"))
    else
      var t := if nTest.Some? then nTest.value else Arith.FloorDiv(n, k);
      Ok(TailSplit(Roll(perm, Arith.FloorDiv(fold * n, k)), t))
  }

  /** Train and test are disjoint and together hold every position exactly
      once, whatever `fold`, `k` and `n_test` are. */
  lemma CrossValidatePartition(n: nat, perm: seq<nat>, fold: int, k: int, nTest: Option<int>)
    requires IsPermutation(perm, n) && k != 0
    ensures var r := CrossValidatePositions(n, perm, fold, k, nTest).value;
            && multiset(r.0 + r.1) == multiset(Range(n))
            && InBounds(r.0, n) && InBounds(r.1, n)
            && Distinct(r.0 + r.1)
            && (forall x :: x in r.0 ==> x !in r.1)
  {
    var r := CrossValidatePositions(n, perm, fold, k, nTest).value;
    RollPermutes(perm, Arith.FloorDiv(fold * n, k));
    Utils.PermutationMultiset(perm, n);
    AtomsDatasets.PartitionOfRange(r.0, r.1, n);
  }

  /** Sizes: `n_test` in `1..n` puts exactly that many in test and the rest in
      train; `n_test == 0` (as the default gives when `n < k`) puts
      everything in test. */
  lemma CrossValidateSizes(n: nat, perm: seq<nat>, fold: int, k: int, nTest: Option<int>)
    requires IsPermutation(perm, n) && k != 0
    ensures var t := if nTest.Some? then nTest.value else Arith.FloorDiv(n, k);
            var r := CrossValidatePositions(n, perm, fold, k, nTest).value;
            && (0 < t <= n ==> |r.1| == t && |r.0| == n - t)
            && (t == 0 ==> r.0 == [] && |r.1| == n)
  {
  }

  /** The default test size is `n // k`: with `0 < k <= n` the test part holds
      `n // k` positions and train the rest. */
  lemma CrossValidateDefaultSize(n: nat, perm: seq<nat>, fold: int, k: int)
    requires IsPermutation(perm, n) && 0 < k <= n
    ensures var r := CrossValidatePositions(n, perm, fold, k, None).value;
            |r.1| == n / k && |r.0| == n - n / k
  {
    Arith.DivLowerBound(n, k, 1);
    Arith.DivAtMost(n, k);
    CrossValidateSizes(n, perm, fold, k, None);
  }

  /** The documented example: three structures and `k = 3` give two for
      training and one for testing. */
  lemma CrossValidateExample(perm: seq<nat>)
    requires IsPermutation(perm, 3)
    ensures var r := CrossValidatePositions(3, perm, 0, 3, None).value;
            |r.0| == 2 && |r.1| == 1
  {
    CrossValidateDefaultSize(3, perm, 0, 3);
  }

  /** `fold` is not reduced modulo `k`: every integer is accepted, and folds
      `k` apart roll by exactly `n` more, which gives the same split. The
      newer `k_fold_split` rejects the same fold. */
  lemma CrossValidateFoldShift(n: nat, perm: seq<nat>, fold: int, k: int, nTest: Option<int>)
    requires IsPermutation(perm, n) && k > 0
    ensures CrossValidatePositions(n, perm, fold + k, k, nTest) == CrossValidatePositions(n, perm, fold, k, nTest)
    ensures Utils.KFoldSplit(Range(n), k, k).Err?
  {
    var s := Arith.FloorDiv(fold * n, k);
    assert (fold + k) * n == fold * n + n * k;
    Arith.ModShift(fold * n, n, k);
    assert Arith.FloorDiv((fold + k) * n, k) == s + n;
    if n > 0 {
      Arith.ModShift(s, 1, n);
      assert Roll(perm, s + n) == Roll(perm, s);
    }
  }

  /** `cross_validate_split(dataset, fold, k, n_test, seed)` of
      `load_atoms.manipulations`: `from_structures([dataset[t] for t in ...])`
      for train and test. */
  function CrossValidateSplit(ss: seq<Structure>, perm: seq<nat>, fold: int, k: int, nTest: Option<int>): (r: Result<(LegacyDatasets.Dataset, LegacyDatasets.Dataset)>)
    requires IsPermutation(perm, |ss|)
    ensures r.Ok? <==> k != 0
    ensures r.Ok? ==> var pos := CrossValidatePositions(|ss|, perm, fold, k, nTest).value;
                      && InBounds(pos.0, |ss|) && InBounds(pos.1, |ss|)
                      && r.value.0.structures == Select(ss, pos.0) && r.value.1.structures == Select(ss, pos.1)
  {
    var pos :- CrossValidatePositions(|ss|, perm, fold, k, nTest);
    CrossValidatePartition(|ss|, perm, fold, k, nTest);
    Ok((LegacyDatasets.Dataset(Select(ss, pos.0), None), LegacyDatasets.Dataset(Select(ss, pos.1), None)))
  }

  /** The same function of `load_atoms.logic.manipulations`. */
  function LogicCrossValidateSplit(ss: seq<Structure>, perm: seq<nat>, fold: int, k: int, nTest: Option<int>): (r: Result<(LogicDatasets.Dataset, LogicDatasets.Dataset)>)
    requires IsPermutation(perm, |ss|)
    ensures r.Ok? <==> CrossValidateSplit(ss, perm, fold, k, nTest).Ok?
    ensures r.Ok? ==> && r.value.0.structures == CrossValidateSplit(ss, perm, fold, k, nTest).value.0.structures
                      && r.value.1.structures == CrossValidateSplit(ss, perm, fold, k, nTest).value.1.structures
  {
    var pos :- CrossValidatePositions(|ss|, perm, fold, k, nTest);
    CrossValidatePartition(|ss|, perm, fold, k, nTest);
    Ok((LogicDatasets.FromStructures(Select(ss, pos.0)).0, LogicDatasets.FromStructures(Select(ss, pos.1)).0))
  }

  /** Train and test together hold every structure exactly as often as the
      dataset does. */
  lemma CrossValidateStructures(ss: seq<Structure>, perm: seq<nat>, fold: int, k: int, nTest: Option<int>)
    requires IsPermutation(perm, |ss|) && k != 0
    ensures var (train, test) := CrossValidateSplit(ss, perm, fold, k, nTest).value;
            && multiset(train.structures + test.structures) == multiset(ss)
            && LegacyDatasets.NAtoms(train) + LegacyDatasets.NAtoms(test) == Structures.NAtoms(ss)
  {
    var pos := CrossValidatePositions(|ss|, perm, fold, k, nTest).value;
    CrossValidatePartition(|ss|, perm, fold, k, nTest);
    Utils.SelectAppend(ss, pos.0, pos.1);
    RangeIsPermutation(|ss|);
    Utils.SelectPreservesMultisetEquality(ss, pos.0 + pos.1, Range(|ss|));
    SelectRange(ss);
    LegacyDatasets.NAtomsSplits(Select(ss, pos.0), Select(ss, pos.1), ss);
  }
}
