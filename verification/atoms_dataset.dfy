/** `AtomsDataset` and its two implementations: an in-memory list of
    structures, and an LMDB store read through a subset of record indices.
    Indexing, iteration, sizes, the lazily loaded `info`/`arrays` columns,
    `filter_by`, the `random_split`/`k_fold_split` wrappers and what `save`
    writes.

    An LMDB store written by `save` holds the records under the keys "0",
    "1", ..., so it is modelled as the list of records; the seeded
    permutations are parameters (`perm`, or a `Shuffler` when one seed is
    used for lists of several lengths).
 */
module AtomsDatasets {
  import opened Wrappers
  import opened Values
  import opened Seqs
  import opened Structures
  import Strings
  import Utils
  import Indexing
  import Mappings
  import DatabaseEntries
  import Arith

  /** `LmdbMetadata`: the record sizes and the per-atom and per-structure keys. */
  datatype Metadata = Metadata(sizes: seq<nat>, perAtom: seq<string>, perStructure: seq<string>)

  datatype Dataset =
    | InMemory(structures: seq<Structure>, description: Option<DatabaseEntries.Entry>)
    | Lmdb(records: seq<Structure>, metadata: Metadata, subset: seq<nat>)

  /** Every index of the subset names a stored record and a recorded size. */
  predicate Valid(d: Dataset) {
    d.Lmdb? ==> InBounds(d.subset, |d.records|) && InBounds(d.subset, |d.metadata.sizes|)
  }

  /** The recorded sizes are those of the stored records (as `save` writes them). */
  predicate SizesRecorded(d: Dataset) {
    d.Lmdb? ==> |d.metadata.sizes| == |d.records|
                && forall i :: 0 <= i < |d.records| ==> d.metadata.sizes[i] == |d.records[i].numbers|
  }

  /** `len(dataset)`: for LMDB, `len(structure_sizes)`, one per subset entry. */
  function Len(d: Dataset): nat {
    if d.InMemory? then |d.structures| else |d.subset|
  }

  /** `iter(dataset)`: the stored list, or the record of every subset index in order. */
  function Iter(d: Dataset): (r: seq<Structure>)
    requires Valid(d)
    ensures |r| == Len(d)
    ensures d.Lmdb? ==> IsSelection(r, d.records, d.subset)
  {
    if d.InMemory? then d.structures else Select(d.records, d.subset)
  }

  /** `structure_sizes`: `[len(s) for s in structures]`, or `sizes[idx_subset]`. */
  function StructureSizes(d: Dataset): (r: seq<nat>)
    requires Valid(d)
    ensures |r| == Len(d)
  {
    if d.InMemory? then Sizes(d.structures) else Select(d.metadata.sizes, d.subset)
  }

  /** `n_atoms`. */
  function NAtoms(d: Dataset): nat
    requires Valid(d)
  {
    Sum(StructureSizes(d))
  }

  /** One size per structure, in iteration order, so `n_atoms` counts the atoms
      of the structures iteration yields. */
  lemma SizesFollowIteration(d: Dataset)
    requires Valid(d) && SizesRecorded(d)
    ensures StructureSizes(d) == Sizes(Iter(d))
    ensures NAtoms(d) == Structures.NAtoms(Iter(d))
  {
  }

  const SINGLE_STRUCTURE_WARNING: string :=
    "Creating a dataset with a single structure. Typically, datasets contain multiple structures - did you mean to do this?"

  /** `InMemoryAtomsDataset(structures, description)`, with the warnings it emits. */
  function NewInMemory(ss: seq<Structure>, description: Option<DatabaseEntries.Entry>): (r: (Dataset, seq<string>))
    ensures Valid(r.0) && Iter(r.0) == ss && r.0.InMemory? && r.0.description == description
    ensures r.1 != [] <==> |ss| == 1
  {
    (InMemory(ss, description), if |ss| == 1 then [SINGLE_STRUCTURE_WARNING] else [])
  }

  // ---------------------------------------------------------------------
  // info and arrays

  /** The declared `info` keys: those all structures share (listed sorted), or
      the metadata's per-structure keys. */
  function InfoKeys(d: Dataset): (r: seq<string>)
    ensures d.InMemory? ==> forall k :: k in r <==> k in SharedInfoKeys(d.structures)
    ensures d.Lmdb? ==> r == d.metadata.perStructure
  {
    if d.InMemory? then Strings.SortedSet(SharedInfoKeys(d.structures)) else d.metadata.perStructure
  }

  /** The declared `arrays` keys: those all structures share, or the metadata's
      per-atom keys. */
  function ArrayKeys(d: Dataset): (r: seq<string>)
    ensures d.InMemory? ==> forall k :: k in r <==> k in SharedArrayKeys(d.structures)
    ensures d.Lmdb? ==> r == d.metadata.perAtom
  {
    if d.InMemory? then Strings.SortedSet(SharedArrayKeys(d.structures)) else d.metadata.perAtom
  }

  /** `dataset.info` before anything is read. */
  function Info(d: Dataset): (r: Mappings.LazyMapping<Result<seq<Value>>>)
    ensures Mappings.Iter(r) == InfoKeys(d) && r.cache == map[]
  {
    Mappings.NewLazy(InfoKeys(d))
  }

  /** The loader behind `dataset.info`. */
  function InfoLoader(d: Dataset): string -> Result<seq<Value>>
    requires Valid(d)
  {
    var ss := Iter(d);
    key => InfoColumn(ss, key)
  }

  /** The loader behind `dataset.arrays`. */
  function ArraysLoader(d: Dataset): string -> Result<seq<Value>>
    requires Valid(d)
  {
    var ss := Iter(d);
    key => ArraysColumn(ss, key)
  }

  /** `dataset.info[key]` on a fresh dataset: a KeyError for an undeclared key,
      otherwise the column of the key over the iterated structures. */
  function ReadInfo(d: Dataset, key: string): (r: Result<seq<Value>>)
    requires Valid(d)
    ensures key !in InfoKeys(d) ==> r == Err(KeyError(key))
    ensures key in InfoKeys(d) ==> r == InfoColumn(Iter(d), key)
    ensures r.Ok? ==> |r.value| == Len(d)
  {
    var (loaded, _) := Mappings.Get(Info(d), key, InfoLoader(d));
    Mappings.NewLazyConsistent(InfoKeys(d), InfoLoader(d));
    Mappings.GetConsistent(Info(d), key, InfoLoader(d));
    var column :- loaded;
    column
  }

  /** In memory, every declared key loads: it is shared by all structures. */
  lemma InMemoryInfoLoads(d: Dataset, key: string)
    requires d.InMemory? && key in InfoKeys(d)
    ensures ReadInfo(d, key).Ok?
    ensures forall i :: 0 <= i < Len(d) ==> ReadInfo(d, key).value[i] == d.structures[i].info[key]
  {
  }

  // ---------------------------------------------------------------------
  // Indexing

  /** One structure, or a view together with the warnings building it emitted. */
  datatype Item = Single(structure: Structure) | View(dataset: Dataset, warnings: seq<string>)

  /** The warnings emitted while building the view `v`: an in-memory view goes
      through the `InMemoryAtomsDataset` constructor, which warns about a
      single structure; an LMDB view is built without a warning. */
  function ViewWarnings(v: Dataset): (r: seq<string>)
    ensures r != [] <==> v.InMemory? && |v.structures| == 1
  {
    if v.InMemory? then NewInMemory(v.structures, v.description).1 else []
  }

  /** `dataset[index]`. In memory, an int reads the stored structure and every
      other index builds a dataset of the selected structures with the same
      description. For LMDB, an int reads the record stored under that key,
      whatever the subset, and every other index selects from the subset. */
  function GetItem(d: Dataset, index: Indexing.Index): (r: Result<Item>)
    requires Valid(d)
    ensures r.Ok? ==> (r.value.Single? <==> index.IntIndex?)
    ensures r.Ok? && r.value.View? ==> Valid(r.value.dataset) && r.value.dataset.InMemory? == d.InMemory?
    ensures r.Ok? && r.value.View? ==> r.value.warnings == ViewWarnings(r.value.dataset)
    ensures r.Ok? && r.value.View? ==> (r.value.warnings != [] <==> d.InMemory? && Len(r.value.dataset) == 1)
  {
    match d
    case InMemory(ss, description) =>
      if index.IntIndex? then
        var p :- Indexing.ResolveInt(index.i, |ss|);
        Ok(Single(ss[p]))
      else
        var pos :- Indexing.Positions(index, |ss|);
        var v := InMemory(Select(ss, pos), description);
        Ok(View(v, ViewWarnings(v)))
    case Lmdb(records, metadata, subset) =>
      if index.IntIndex? then
        if 0 <= index.i < |records| then Ok(Single(records[index.i]))
        else Err(TypeError("a bytes-like object is required, not 'NoneType'"))
      else
        var pos :- Indexing.Positions(index, |subset|);
        Ok(View(Lmdb(records, metadata, Select(subset, pos)), []))
  }

  lemma SelectSelect<T>(xs: seq<T>, a: seq<nat>, b: seq<nat>)
    requires InBounds(a, |xs|) && InBounds(b, |a|)
    ensures InBounds(Select(a, b), |xs|)
    ensures Select(xs, Select(a, b)) == Select(Select(xs, a), b)
  {
  }

  /** Every non-int index selects `Positions(index)` from the iterated
      structures; in memory the description is kept, and an LMDB view reads
      the same records through the selected part of the subset. */
  lemma ViewSelects(d: Dataset, index: Indexing.Index)
    requires Valid(d) && !index.IntIndex?
    ensures var pos := Indexing.Positions(index, Len(d));
            var r := GetItem(d, index);
            && (r.Ok? <==> pos.Ok?)
            && (r.Ok? ==> Iter(r.value.dataset) == Select(Iter(d), pos.value))
            && (r.Ok? && d.InMemory? ==> r.value.dataset.description == d.description)
            && (r.Ok? && d.Lmdb? ==> r.value.dataset.records == d.records
                                     && r.value.dataset.subset == Select(d.subset, pos.value))
  {
    var pos := Indexing.Positions(index, Len(d));
    if pos.Ok? && d.Lmdb? {
      SelectSelect(d.records, d.subset, pos.value);
    }
  }

  /** An int reads one structure: in memory, the stored structure at the
      position Python resolves (negative counting from the end); an
      out-of-range int raises IndexError. */
  lemma InMemoryIntIndex(d: Dataset, i: int)
    requires d.InMemory?
    ensures var r := GetItem(d, Indexing.IntIndex(i));
            && (r.Ok? <==> -(Len(d) as int) <= i < Len(d))
            && (r.Ok? ==> r.value.structure == d.structures[if i >= 0 then i else i + Len(d)])
            && (r.Err? ==> r.error.IndexError?)
  {
  }

  /** A slice with bounds inside the dataset gives the contiguous run. */
  lemma SliceView(d: Dataset, a: nat, b: nat)
    requires Valid(d) && a <= b <= Len(d)
    ensures var r := GetItem(d, Indexing.SliceIndex(Indexing.Slice(Some(a), Some(b), None)));
            r.Ok? && Iter(r.value.dataset) == Iter(d)[a..b]
  {
    var index := Indexing.SliceIndex(Indexing.Slice(Some(a), Some(b), None));
    Indexing.SliceWithinBounds(a, b, Len(d));
    assert Indexing.Positions(index, Len(d)) == Ok(Range(Len(d))[a..b]);
    ViewSelects(d, index);
    SelectRun(Iter(d), a, b);
  }

  /** Selecting the positions `a, ..., b - 1` reads the run `xs[a..b]`. */
  lemma SelectRun<T>(xs: seq<T>, a: nat, b: nat)
    requires a <= b <= |xs|
    ensures InBounds(Range(|xs|)[a..b], |xs|)
    ensures Select(xs, Range(|xs|)[a..b]) == xs[a..b]
  {
    RangeRun(|xs|, a, b);
    SelectConsecutive(xs, a, Range(|xs|)[a..b]);
  }

  lemma RangeRun(n: nat, a: nat, b: nat)
    requires a <= b <= n
    ensures |Range(n)[a..b]| == b - a
    ensures forall i :: 0 <= i < b - a ==> Range(n)[a..b][i] == a + i
  {
    var r := Range(n);
    forall i | 0 <= i < b - a ensures r[a..b][i] == a + i {
      assert r[a..b][i] == r[a + i];
    }
  }

  lemma {:induction false} SelectConsecutive<T>(xs: seq<T>, a: nat, idx: seq<nat>)
    requires a + |idx| <= |xs|
    requires forall i :: 0 <= i < |idx| ==> idx[i] == a + i
    ensures InBounds(idx, |xs|)
    ensures Select(xs, idx) == xs[a..a + |idx|]
    decreases |idx|
  {
    if idx != [] {
      var rest := idx[1..];
      SelectConsecutive(xs, a + 1, rest);
      assert xs[a..a + |idx|] == [xs[a]] + xs[a + 1..a + 1 + |rest|];
    }
  }

  /** An int list or int array gives one structure per entry, in entry order,
      repeats included. */
  lemma ListView(d: Dataset, items: seq<int>, asArray: bool)
    requires Valid(d)
    requires forall k :: 0 <= k < |items| ==> -(Len(d) as int) <= items[k] < Len(d)
    ensures var index := if asArray then Indexing.IntArray(items) else Indexing.IntList(items);
            var r := GetItem(d, index);
            && r.Ok?
            && |Iter(r.value.dataset)| == |items|
            && forall k :: 0 <= k < |items| ==>
                 Iter(r.value.dataset)[k] == Iter(d)[if items[k] >= 0 then items[k] else items[k] + Len(d)]
  {
    var index := if asArray then Indexing.IntArray(items) else Indexing.IntList(items);
    ViewSelects(d, index);
    var pos := Indexing.ResolveAll(items, Len(d)).value;
    forall k | 0 <= k < |items|
      ensures pos[k] == if items[k] >= 0 then items[k] else items[k] + Len(d)
    {
      assert Indexing.ResolveInt(items[k], Len(d)) == Ok(pos[k]);
    }
  }

  /** A boolean mask of the dataset's length keeps exactly the positions where it
      is true, in order; a mask of another length raises IndexError. */
  lemma MaskView(d: Dataset, mask: seq<bool>)
    requires Valid(d)
    ensures var r := GetItem(d, Indexing.BoolMask(mask));
            && (r.Ok? <==> |mask| == Len(d))
            && (r.Ok? ==> Iter(r.value.dataset) == Select(Iter(d), Indexing.MaskPositions(mask)))
            && (r.Err? ==> r.error.IndexError?)
  {
    ViewSelects(d, Indexing.BoolMask(mask));
  }

  /** LMDB int indexing ignores the subset: after `dataset[1:]`, `view[0]` is
      still record 0, while iterating the view starts at record 1. */
  lemma LmdbIntIgnoresSubset(d: Dataset)
    requires d.Lmdb? && |d.records| >= 2 && d.records[0] != d.records[1]
    requires |d.metadata.sizes| == |d.records| && d.subset == Range(|d.records|)
    ensures var view := GetItem(d, Indexing.SliceIndex(Indexing.Slice(Some(1), None, None)));
            && view.Ok? && view.value.View?
            && GetItem(view.value.dataset, Indexing.IntIndex(0)) == Ok(Single(d.records[0]))
            && Iter(view.value.dataset)[0] == d.records[1]
  {
    LmdbSliceFrom(d, 1);
  }

  /** `dataset[a:]` on an LMDB dataset selects the subset from `a` on. */
  lemma LmdbSliceFrom(d: Dataset, a: nat)
    requires Valid(d) && d.Lmdb? && a <= Len(d)
    ensures var r := GetItem(d, Indexing.SliceIndex(Indexing.Slice(Some(a), None, None)));
            r == Ok(View(Lmdb(d.records, d.metadata, d.subset[a..]), []))
  {
    var n := |d.subset|;
    var idx := Indexing.SliceIndex(Indexing.Slice(Some(a), None, None));
    Indexing.SliceFromWithinBounds(a, n);
    assert Indexing.Positions(idx, n) == Ok(Range(n)[a..n]);
    SelectRun(d.subset, a, n);
    assert d.subset[a..n] == d.subset[a..];
    assert GetItem(d, idx) == Ok(View(Lmdb(d.records, d.metadata, d.subset[a..]), []));
  }

  // ---------------------------------------------------------------------
  // Index lists

  /** `dataset[positions]` for a list of in-range positions. */
  function ViewAt(d: Dataset, pos: seq<nat>): (r: Dataset)
    requires Valid(d) && InBounds(pos, Len(d))
    ensures Valid(r)
  {
    if d.InMemory? then InMemory(Select(d.structures, pos), d.description)
    else Lmdb(d.records, d.metadata, Select(d.subset, pos))
  }

  /** Indexing with a list of in-range positions never fails and builds the
      view of those positions. */
  lemma ListIndexIsView(d: Dataset, pos: seq<nat>)
    requires Valid(d) && InBounds(pos, Len(d))
    ensures GetItem(d, Indexing.IntList(pos)) == Ok(View(ViewAt(d, pos), ViewWarnings(ViewAt(d, pos))))
    ensures Iter(ViewAt(d, pos)) == Select(Iter(d), pos)
  {
    var r := Indexing.ResolveAll(pos, Len(d));
    forall k | 0 <= k < |pos| ensures r.value[k] == pos[k] {
      assert Indexing.ResolveInt(pos[k], Len(d)) == Ok(r.value[k]);
    }
    assert r.value == pos;
    if d.Lmdb? {
      SelectSelect(d.records, d.subset, pos);
    }
  }

  // ---------------------------------------------------------------------
  // filter_by

  /** `filter_by(*functions, **info_kwargs)`: `self[index]` for the positions of
      the passing structures, with the warnings building that view emits. */
  function FilterBy(d: Dataset, preds: seq<Structure -> bool>, kwargs: seq<(string, Value)>): (r: (Dataset, seq<string>))
    requires Valid(d)
    ensures Valid(r.0)
    ensures d.InMemory? ==> r.0.InMemory? && r.0.description == d.description
    ensures d.Lmdb? ==> r.0.Lmdb? && r.0.records == d.records && r.0.metadata == d.metadata
    ensures r.1 == ViewWarnings(r.0)
  {
    var v := ViewAt(d, Passing(Iter(d), preds, kwargs));
    (v, ViewWarnings(v))
  }

  /** The filtered dataset holds, in their original order, exactly the
      structures that every function accepts and whose `info` matches every
      keyword (a missing key compares as None); it is what indexing with the
      passing positions gives, and an in-memory filter keeping one structure
      warns about it. */
  lemma FilterByKeeps(d: Dataset, preds: seq<Structure -> bool>, kwargs: seq<(string, Value)>)
    requires Valid(d)
    ensures Iter(FilterBy(d, preds, kwargs).0) == Kept(Iter(d), preds, kwargs)
    ensures GetItem(d, Indexing.IntList(Passing(Iter(d), preds, kwargs)))
            == Ok(View(FilterBy(d, preds, kwargs).0, FilterBy(d, preds, kwargs).1))
    ensures FilterBy(d, preds, kwargs).1 != [] <==> d.InMemory? && |Kept(Iter(d), preds, kwargs)| == 1
  {
    ListIndexIsView(d, Passing(Iter(d), preds, kwargs));
    PassingSelectsKept(Iter(d), preds, kwargs);
  }

  // ---------------------------------------------------------------------
  // random_split and k_fold_split

  /** The KeyError message for a `keep_ratio` key the dataset does not declare. */
  function UnknownKey(key: string, keys: seq<string>): string {
    "Unknown key " + key + ". Available keys are: " + Strings.Join(", ", keys)
  }

  /** `partial(random_split, seed=seed, splits=normalised)`, applied to each group. */
  function GroupSplitter(normalised: Utils.SplitSpec, sh: Shuffler): (f: seq<nat> -> Result<seq<seq<nat>>>)
    requires ValidShuffler(sh)
  {
    xs => Utils.RandomSplit(xs, normalised, sh(|xs|))
  }

  lemma GroupSplitterKeepsWithin(normalised: Utils.SplitSpec, sh: Shuffler)
    requires ValidShuffler(sh)
    ensures Utils.KeepsWithin(GroupSplitter(normalised, sh))
  {
    var f := GroupSplitter(normalised, sh);
    forall xs: seq<nat> | f(xs).Ok? ensures multiset(Flatten(f(xs).value)) <= multiset(xs) {
      Utils.RandomSplitSubMultiset(xs, normalised, sh(|xs|));
    }
  }

  /** The chosen part `j` of a keep-ratio split: `choose_n(split, size, seed)`. */
  function Chosen(merged: seq<seq<nat>>, sizes: seq<nat>, sh: Shuffler): (r: seq<seq<nat>>)
    requires ValidShuffler(sh)
    ensures |r| == if |merged| < |sizes| then |merged| else |sizes|
    ensures forall j :: 0 <= j < |r| ==> |r[j]| == (if sizes[j] < |merged[j]| then sizes[j] else |merged[j]|)
    ensures forall j :: 0 <= j < |r| ==> multiset(r[j]) <= multiset(merged[j])
  {
    var m := if |merged| < |sizes| then |merged| else |sizes|;
    var r := seq(m, j requires 0 <= j < m => Utils.ChooseN(merged[j], sizes[j], sh(|merged[j]|)));
    forall j | 0 <= j < m ensures multiset(r[j]) <= multiset(merged[j]) {
      Utils.ChooseNSubMultiset(merged[j], sizes[j], sh(|merged[j]|));
    }
    r
  }

  /** The position lists `random_split` turns into datasets. Without
      `keep_ratio`: a random split of `range(len)`. With it: an unknown key is
      a KeyError; the target sizes are the counts or `int(f * len)`; the
      positions are grouped by the key's value as a dictionary key
      (`Values.KeyOf`: `1` and `1.0` together) and split group by group with the fractions divided by their
      sum (ZeroDivisionError when they add up to zero), and `choose_n` keeps up to the target size of each merged
      part. */
  function RandomSplitPositions(d: Dataset, spec: Utils.SplitSpec, sh: Shuffler, keepRatio: Option<string>)
    : (r: Result<seq<seq<nat>>>)
    requires Valid(d) && ValidShuffler(sh)
    ensures keepRatio.Some? && keepRatio.value !in InfoKeys(d) ==>
              r == Err(KeyError(UnknownKey(keepRatio.value, InfoKeys(d))))
  {
    var n := Len(d);
    if keepRatio.None? then Utils.RandomSplit(Range(n), spec, sh(n))
    else if keepRatio.value !in InfoKeys(d) then Err(KeyError(UnknownKey(keepRatio.value, InfoKeys(d))))
    else
      var sizes :- Utils.SplitSizes(spec, n);
      var normalised :- Utils.Normalised(spec);
      var ids :- ReadInfo(d, keepRatio.value);
      var merged :- Utils.SplitKeepingRatio(Range(n), Values.KeysOf(ids), GroupSplitter(normalised, sh));
      Ok(Chosen(merged, sizes, sh))
  }

  /** Without `keep_ratio`, the split fails exactly when no sizes are given or
      they add up to more than the dataset holds. */
  lemma RandomSplitPlainErrors(d: Dataset, spec: Utils.SplitSpec, sh: Shuffler)
    requires Valid(d) && ValidShuffler(sh)
    ensures RandomSplitPositions(d, spec, sh, None).Ok?
            <==> Utils.SpecLength(spec) > 0 && Sum(Utils.SplitSizes(spec, Len(d)).value) <= Len(d)
  {
    Utils.RandomSplitErrors(Range(Len(d)), spec, sh(Len(d)));
  }

  /** With a known `keep_ratio` key: no sizes at all is an IndexError, and sizes
      adding up to zero are a ZeroDivisionError raised while normalising them. */
  lemma RandomSplitKeepRatioErrors(d: Dataset, spec: Utils.SplitSpec, sh: Shuffler, key: string)
    requires Valid(d) && ValidShuffler(sh) && key in InfoKeys(d)
    ensures Utils.SpecLength(spec) == 0 ==>
              RandomSplitPositions(d, spec, sh, Some(key)) == Err(IndexError("list index out of range"))
    ensures Utils.SpecLength(spec) > 0 && Utils.FracSum(Utils.Entries(spec)).num == 0 ==>
              RandomSplitPositions(d, spec, sh, Some(key)) == Err(ZeroDivisionError("division by zero"))
  {
  }

  /** Without `keep_ratio`: one part per requested size, each of exactly that
      size, and no position in two parts or twice in one. */
  lemma RandomSplitPlain(d: Dataset, spec: Utils.SplitSpec, sh: Shuffler)
    requires Valid(d) && ValidShuffler(sh)
    requires RandomSplitPositions(d, spec, sh, None).Ok?
    ensures var r := RandomSplitPositions(d, spec, sh, None).value;
            && |r| == Utils.SpecLength(spec)
            && (forall j :: 0 <= j < |r| ==> |r[j]| == Utils.SplitSizes(spec, Len(d)).value[j])
            && (forall j :: 0 <= j < |r| ==> InBounds(r[j], Len(d)))
            && Distinct(Flatten(r))
  {
    var n := Len(d);
    var r := Utils.RandomSplit(Range(n), spec, sh(n)).value;
    Utils.RandomSplitParts(Range(n), spec, sh(n));
    Utils.RandomSplitDisjoint(Range(n), spec, sh(n));
    RangePartsInBounds(r, n);
  }

  /** Parts whose items all come from `range(n)` hold positions below `n`. */
  lemma RangePartsInBounds(r: seq<seq<nat>>, n: nat)
    requires forall j, x :: 0 <= j < |r| && x in r[j] ==> x in Range(n)
    ensures forall j :: 0 <= j < |r| ==> InBounds(r[j], n)
  {
    forall j, i | 0 <= j < |r| && 0 <= i < |r[j]| ensures r[j][i] < n {
      var x := r[j][i];
      assert x in r[j];
      assert x in Range(n);
      var k :| 0 <= k < n && Range(n)[k] == x;
    }
  }

  /** With `keep_ratio`: every output part is drawn from the merged stratified
      part of the same number, holds the smaller of its target size and that
      part's size, and no position is in two outputs or twice in one. */
  lemma RandomSplitKeepRatio(d: Dataset, spec: Utils.SplitSpec, sh: Shuffler, key: string)
    requires Valid(d) && ValidShuffler(sh)
    requires RandomSplitPositions(d, spec, sh, Some(key)).Ok?
    ensures var n := Len(d);
            var sizes := Utils.SplitSizes(spec, n).value;
            var ids := Values.KeysOf(ReadInfo(d, key).value);
            var normalised := Utils.Normalised(spec).value;
            var merged := Utils.SplitKeepingRatio(Range(n), ids, GroupSplitter(normalised, sh)).value;
            var r := RandomSplitPositions(d, spec, sh, Some(key)).value;
            && |r| == (if |merged| < |sizes| then |merged| else |sizes|)
            && (forall j :: 0 <= j < |r| ==> |r[j]| == (if sizes[j] < |merged[j]| then sizes[j] else |merged[j]|))
            && (forall j :: 0 <= j < |r| ==> multiset(r[j]) <= multiset(merged[j]))
            && (forall j :: 0 <= j < |r| ==> InBounds(r[j], n))
            && Distinct(Flatten(r))
  {
    var n := Len(d);
    var sizes := Utils.SplitSizes(spec, n).value;
    var ids := Values.KeysOf(ReadInfo(d, key).value);
    var normalised := Utils.Normalised(spec).value;
    var f := GroupSplitter(normalised, sh);
    var merged := Utils.SplitKeepingRatio(Range(n), ids, f).value;
    MergedWithin(n, ids, normalised, sh);
    ChosenParts(n, sizes, merged, RandomSplitPositions(d, spec, sh, Some(key)).value, sh);
  }

  /** The parts chosen from a split of `range(n)` that never invents a
      position: sized by the targets, drawn from their merged parts, in
      range and pairwise disjoint. */
  lemma ChosenParts(n: nat, sizes: seq<nat>, merged: seq<seq<nat>>, r: seq<seq<nat>>, sh: Shuffler)
    requires ValidShuffler(sh)
    requires multiset(Flatten(merged)) <= multiset(Range(n))
    requires r == Chosen(merged, sizes, sh)
    ensures |r| == (if |merged| < |sizes| then |merged| else |sizes|)
    ensures forall j :: 0 <= j < |r| ==> |r[j]| == (if sizes[j] < |merged[j]| then sizes[j] else |merged[j]|)
    ensures forall j :: 0 <= j < |r| ==> multiset(r[j]) <= multiset(merged[j])
    ensures forall j :: 0 <= j < |r| ==> InBounds(r[j], n)
    ensures Distinct(Flatten(r))
  {
    ChosenWithin(merged, r, n);
  }

  /** Splitting `range(n)` group by group never invents a position. */
  lemma MergedWithin<G>(n: nat, ids: seq<G>, normalised: Utils.SplitSpec, sh: Shuffler)
    requires ValidShuffler(sh) && |ids| == n
    requires Utils.SplitKeepingRatio(Range(n), ids, GroupSplitter(normalised, sh)).Ok?
    ensures multiset(Flatten(Utils.SplitKeepingRatio(Range(n), ids, GroupSplitter(normalised, sh)).value)) <= multiset(Range(n))
  {
    GroupSplitterKeepsWithin(normalised, sh);
    Utils.SplitKeepingRatioWithin(Range(n), ids, GroupSplitter(normalised, sh));
  }

  /** Parts drawn from the first parts of a split of `range(n)` that never
      invents items are in range and pairwise disjoint. */
  lemma ChosenWithin(merged: seq<seq<nat>>, r: seq<seq<nat>>, n: nat)
    requires multiset(Flatten(merged)) <= multiset(Range(n))
    requires |r| <= |merged| && forall j :: 0 <= j < |r| ==> multiset(r[j]) <= multiset(merged[j])
    ensures forall j :: 0 <= j < |r| ==> InBounds(r[j], n)
    ensures Distinct(Flatten(r))
  {
    ChosenSubMultiset(merged, r);
    RangeIsPermutation(n);
    SubMultisetDistinct(Flatten(r), Range(n));
    forall j, x | 0 <= j < |r| && x in r[j] ensures x in Range(n) {
      FlattenContains(r, j, x);
      assert x in multiset(Range(n));
    }
    RangePartsInBounds(r, n);
  }

  /** Pointwise sub-multisets of the first parts add up to a sub-multiset of
      all the parts. */
  lemma ChosenSubMultiset<T>(merged: seq<seq<T>>, r: seq<seq<T>>)
    requires |r| <= |merged| && forall j :: 0 <= j < |r| ==> multiset(r[j]) <= multiset(merged[j])
    ensures multiset(Flatten(r)) <= multiset(Flatten(merged))
  {
    var m := |r|;
    assert merged == merged[..m] + merged[m..];
    FlattenAppend(merged[..m], merged[m..]);
    Utils.FlattenSubMultiset(r, merged[..m]);
  }

  /** `partial(k_fold_split, k=k, fold=fold)`, returning the two parts as a list. */
  function FoldSplitter(k: int, fold: int): (f: seq<nat> -> Result<seq<seq<nat>>>) {
    xs => match Utils.KFoldSplit(xs, k, fold)
          case Ok(p) => Ok([p.0, p.1])
          case Err(e) => Err(e)
  }

  /** The train and test positions `k_fold_split` selects; `perm` is the seeded
      permutation used when shuffling. */
  function KFoldPositionsOf(d: Dataset, k: int, fold: int, shuffle: bool, perm: seq<nat>,
                            keepRatio: Option<string>): (r: Result<(seq<nat>, seq<nat>)>)
    requires Valid(d) && IsPermutation(perm, Len(d))
    ensures k < 2 ==> r == Err(ValueError("k must be at least 2"))
    ensures k >= 2 && keepRatio.Some? && keepRatio.value !in InfoKeys(d) ==>
              r == Err(KeyError(UnknownKey(keepRatio.value, InfoKeys(d))))
    ensures k >= 2 && keepRatio.Some? && keepRatio.value in InfoKeys(d) && !shuffle ==>
              r == Err(ValueError("Keep ratio splits are only supported when shuffling."))
  {
    if k < 2 then Err(ValueError("k must be at least 2"))
    else
      var f := fold % k;
      var idxs := if shuffle then perm else Range(Len(d));
      if keepRatio.None? then Utils.KFoldSplit(idxs, k, f)
      else if keepRatio.value !in InfoKeys(d) then Err(KeyError(UnknownKey(keepRatio.value, InfoKeys(d))))
      else if !shuffle then Err(ValueError("Keep ratio splits are only supported when shuffling."))
      else
        var column :- ReadInfo(d, keepRatio.value);
        KeepRatioFolds(idxs, Values.KeysOf(column), k, f)
  }

  /** The fold taken group by group, where `column` holds each structure's
      group key for the `keep_ratio` property; the parts are unpacked into a pair. */
  function KeepRatioFolds<V(==)>(idxs: seq<nat>, column: seq<V>, k: int, f: int): (r: Result<(seq<nat>, seq<nat>)>)
    requires InBounds(idxs, |column|)
    ensures r.Ok? ==> var sp := Utils.SplitKeepingRatio(idxs, Select(column, idxs), FoldSplitter(k, f));
                      sp.Ok? && |sp.value| == 2 && r.value == (sp.value[0], sp.value[1])
  {
    var parts :- Utils.SplitKeepingRatio(idxs, Select(column, idxs), FoldSplitter(k, f));
    if |parts| < 2 then Err(ValueError("not enough values to unpack (expected 2)"))
    else if |parts| > 2 then Err(ValueError("too many values to unpack (expected 2)"))
    else Ok((parts[0], parts[1]))
  }

  /** `keep_ratio` groups structures as a dictionary keyed by their property
      does: `1` and `1.0` are one group, `1` and `"1"` are two. */
  lemma KeepRatioGroupsByValue(x: nat, y: nat)
    ensures Utils.Groups([x, y], Values.KeysOf([VInt(1), VFloat(1, 1, "1.0")])) == [[x, y]]
    ensures Utils.Groups([x, y], Values.KeysOf([VInt(1), VStr("1")])) == [[x], [y]]
  {
    assert Values.KeysOf([VInt(1), VFloat(1, 1, "1.0")]) == [NumberKey(1.0), NumberKey(1.0)];
    Utils.GroupsOfTwo(x, y, NumberKey(1.0), NumberKey(1.0));
    assert Values.KeysOf([VInt(1), VStr("1")]) == [NumberKey(1.0), PlainKey(VStr("1"))];
    Utils.GroupsOfTwo(x, y, NumberKey(1.0), PlainKey(VStr("1")));
  }

  /** Two position lists that together are a rearrangement of `range(n)` are in
      range, share nothing and repeat nothing. */
  lemma PartitionOfRange(train: seq<nat>, test: seq<nat>, n: nat)
    requires multiset(train + test) == multiset(Range(n))
    ensures InBounds(train, n) && InBounds(test, n)
    ensures Distinct(train + test)
    ensures forall x :: x in train ==> x !in test
  {
    RangeIsPermutation(n);
    SubMultisetDistinct(train + test, Range(n));
    DisjointConcat(train, test);
    forall x | x in train + test ensures x < n {
      assert x in multiset(Range(n));
      var k :| 0 <= k < n && Range(n)[k] == x;
    }
    forall i | 0 <= i < |train| ensures train[i] < n {
      assert train[i] == (train + test)[i];
      assert train[i] in train + test;
    }
    forall i | 0 <= i < |test| ensures test[i] < n {
      assert test[i] == (train + test)[|train| + i];
      assert test[i] in train + test;
    }
  }

  /** Selecting with `k_fold_split`'s train and test positions rearranges the list. */
  lemma KFoldRearranges<T>(xs: seq<T>, k: int, fold: int)
    requires 0 <= fold < k
    ensures var p := Utils.KFoldSplit(xs, k, fold).value;
            multiset(p.0 + p.1) == multiset(xs)
  {
    var pos := Utils.KFoldPositions(|xs|, k, fold);
    Utils.KFoldPositionsPartition(|xs|, k, fold);
    Utils.SelectAppend(xs, pos.0, pos.1);
    Utils.SelectPermutation(xs, pos.0 + pos.1);
  }

  lemma FoldSplitterRearranges(k: int, fold: int)
    requires 0 <= fold < k
    ensures Utils.Rearranges(FoldSplitter(k, fold))
  {
    var f := FoldSplitter(k, fold);
    forall xs: seq<nat> | f(xs).Ok? ensures multiset(Flatten(f(xs).value)) == multiset(xs) {
      FoldSplitterOn(k, fold, xs);
    }
  }

  /** The fold splitter on one list: train and test together rearrange it. */
  lemma FoldSplitterOn(k: int, fold: int, xs: seq<nat>)
    requires 0 <= fold < k
    ensures FoldSplitter(k, fold)(xs).Ok?
    ensures multiset(Flatten(FoldSplitter(k, fold)(xs).value)) == multiset(xs)
  {
    var p := Utils.KFoldSplit(xs, k, fold).value;
    assert FoldSplitter(k, fold)(xs).value == [p.0, p.1];
    FlattenCons(p.0, [p.1]);
    FlattenOne(p.1);
    KFoldRearranges(xs, k, fold);
  }

  /** Without `keep_ratio`, any `k >= 2` and any integer `fold` split the
      dataset: train and test are disjoint and together hold every position. */
  lemma KFoldPlainPartition(d: Dataset, k: int, fold: int, shuffle: bool, perm: seq<nat>)
    requires Valid(d) && IsPermutation(perm, Len(d)) && k >= 2
    ensures var r := KFoldPositionsOf(d, k, fold, shuffle, perm, None);
            && r.Ok?
            && multiset(r.value.0 + r.value.1) == multiset(Range(Len(d)))
            && InBounds(r.value.0, Len(d)) && InBounds(r.value.1, Len(d))
            && (forall x :: x in r.value.0 ==> x !in r.value.1)
  {
    var n := Len(d);
    var idxs := if shuffle then perm else Range(n);
    RangeIsPermutation(n);
    Utils.PermutationMultiset(idxs, n);
    KFoldRearranges(idxs, k, fold % k);
    var r := KFoldPositionsOf(d, k, fold, shuffle, perm, None).value;
    PartitionOfRange(r.0, r.1, n);
  }

  /** Splitting group by group with the fold splitter yields two parts that
      rearrange the input. */
  lemma KeepRatioFoldParts<G>(idxs: seq<nat>, ids: seq<G>, k: int, fold: int)
    requires 0 <= fold < k && |idxs| == |ids|
    requires Utils.SplitKeepingRatio(idxs, ids, FoldSplitter(k, fold)).Ok?
    requires |Utils.SplitKeepingRatio(idxs, ids, FoldSplitter(k, fold)).value| == 2
    ensures var parts := Utils.SplitKeepingRatio(idxs, ids, FoldSplitter(k, fold)).value;
            multiset(parts[0] + parts[1]) == multiset(idxs)
  {
    FoldSplitterRearranges(k, fold);
    Utils.SplitKeepingRatioPartition(idxs, ids, FoldSplitter(k, fold));
    TwoParts(Utils.SplitKeepingRatio(idxs, ids, FoldSplitter(k, fold)).value);
  }

  /** Two parts flatten to their concatenation. */
  lemma TwoParts<T>(parts: seq<seq<T>>)
    requires |parts| == 2
    ensures Flatten(parts) == parts[0] + parts[1]
  {
    assert parts == [parts[0]] + [parts[1]];
    FlattenCons(parts[0], [parts[1]]);
    FlattenOne(parts[1]);
  }

  /** A successful `keep_ratio` split shuffles and folds the key's column. */
  lemma KFoldKeepRatioUnpacks(d: Dataset, k: int, fold: int, shuffle: bool, perm: seq<nat>, key: string)
    requires Valid(d) && IsPermutation(perm, Len(d))
    requires KFoldPositionsOf(d, k, fold, shuffle, perm, Some(key)).Ok?
    ensures shuffle && 2 <= k && ReadInfo(d, key).Ok? && |ReadInfo(d, key).value| == Len(d)
    ensures KFoldPositionsOf(d, k, fold, shuffle, perm, Some(key)) == KeepRatioFolds(perm, Values.KeysOf(ReadInfo(d, key).value), k, fold % k)
  {
  }

  /** With `keep_ratio`, a successful split is also a partition of the positions. */
  lemma KFoldKeepRatioPartition(d: Dataset, k: int, fold: int, shuffle: bool, perm: seq<nat>, key: string)
    requires Valid(d) && IsPermutation(perm, Len(d))
    requires KFoldPositionsOf(d, k, fold, shuffle, perm, Some(key)).Ok?
    ensures var r := KFoldPositionsOf(d, k, fold, shuffle, perm, Some(key)).value;
            && multiset(r.0 + r.1) == multiset(Range(Len(d)))
            && InBounds(r.0, Len(d)) && InBounds(r.1, Len(d))
            && (forall x :: x in r.0 ==> x !in r.1)
  {
    KFoldKeepRatioUnpacks(d, k, fold, shuffle, perm, key);
    var ids := Select(Values.KeysOf(ReadInfo(d, key).value), perm);
    assert |ids| == |perm|;
    KeepRatioFoldParts(perm, ids, k, fold % k);
    Utils.PermutationMultiset(perm, Len(d));
    var r := KFoldPositionsOf(d, k, fold, shuffle, perm, Some(key)).value;
    PartitionOfRange(r.0, r.1, Len(d));
  }

  /** Sizes without `keep_ratio`: with at least `k` structures the test part has
      `len // k` of them; with fewer, train is empty and test holds everything. */
  lemma KFoldPlainSizes(d: Dataset, k: int, fold: int, shuffle: bool, perm: seq<nat>)
    requires Valid(d) && IsPermutation(perm, Len(d)) && k >= 2
    ensures var r := KFoldPositionsOf(d, k, fold, shuffle, perm, None).value;
            && (Len(d) >= k ==> |r.1| == Len(d) / k && |r.0| == Len(d) - Len(d) / k)
            && (Len(d) < k ==> r.0 == [] && |r.1| == Len(d))
  {
    var idxs := if shuffle then perm else Range(Len(d));
    Utils.KFoldSizes(idxs, k, fold % k);
  }

  /** Only `fold % k` matters: folds that differ by a multiple of `k` give the
      same split. */
  lemma KFoldFoldModulo(d: Dataset, k: int, fold: int, m: int, shuffle: bool, perm: seq<nat>, keepRatio: Option<string>)
    requires Valid(d) && IsPermutation(perm, Len(d))
    ensures KFoldPositionsOf(d, k, fold + m * k, shuffle, perm, keepRatio) == KFoldPositionsOf(d, k, fold, shuffle, perm, keepRatio)
  {
    if k >= 2 {
      Arith.ModShift(fold, m, k);
    }
  }

  /** Fold 0 keeps `range(n)` in order and takes the test part from its end. */
  lemma FirstFoldPositions(n: nat, k: nat)
    requires 2 <= k <= n
    ensures Utils.KFoldPositions(n, k, 0).0 == Range(n)[..n - n / k]
  {
    Arith.FoldSizeBetween(n, k);
    assert 0 * n / k == 0;
    assert Roll(Range(n), 0) == Range(n);
  }

  /** Unshuffled, fold 0 of a dataset with at least `k` structures puts
      structure 0 first in train. */
  lemma UnshuffledFirstFold(d: Dataset, k: int, perm: seq<nat>)
    requires Valid(d) && IsPermutation(perm, Len(d)) && 2 <= k <= Len(d)
    ensures var r := KFoldPositionsOf(d, k, 0, false, perm, None).value;
            |r.0| > 0 && r.0[0] == 0
  {
    var n := Len(d);
    FirstFoldPositions(n, k);
    Arith.FoldSizeBetween(n, k);
    var pos := Utils.KFoldPositions(n, k, 0);
    var train := Select(Range(n), pos.0);
    assert train[0] == Range(n)[pos.0[0]] == 0;
  }

  // ---------------------------------------------------------------------
  // The datasets the splits return

  /** Every successful split holds in-range positions and no position twice. */
  lemma RandomSplitPositionsInBounds(d: Dataset, spec: Utils.SplitSpec, sh: Shuffler,
                                     keepRatio: Option<string>)
    requires Valid(d) && ValidShuffler(sh)
    requires RandomSplitPositions(d, spec, sh, keepRatio).Ok?
    ensures var r := RandomSplitPositions(d, spec, sh, keepRatio).value;
            (forall j :: 0 <= j < |r| ==> InBounds(r[j], Len(d))) && Distinct(Flatten(r))
  {
    if keepRatio.None? {
      RandomSplitPlain(d, spec, sh);
    } else {
      RandomSplitKeepRatio(d, spec, sh, keepRatio.value);
    }
  }

  /** `random_split(splits, seed, keep_ratio)`: `self[split]` for each list of
      positions, so it fails exactly when the positions do, and part `j` is the
      dataset indexing with the `j`-th list gives. The warnings are those the
      parts emit, in part order: one for each in-memory part of one structure. */
  function RandomSplitOf(d: Dataset, spec: Utils.SplitSpec, sh: Shuffler,
                         keepRatio: Option<string>): (r: Result<(seq<Dataset>, seq<string>)>)
    requires Valid(d) && ValidShuffler(sh)
    ensures r.Ok? <==> RandomSplitPositions(d, spec, sh, keepRatio).Ok?
    ensures r.Err? ==> r.error == RandomSplitPositions(d, spec, sh, keepRatio).error
    ensures r.Ok? ==> var pos := RandomSplitPositions(d, spec, sh, keepRatio).value;
                      var parts := r.value.0;
                      && |parts| == |pos|
                      && (forall j :: 0 <= j < |pos| ==>
                           && Valid(parts[j])
                           && GetItem(d, Indexing.IntList(pos[j])) == Ok(View(parts[j], ViewWarnings(parts[j])))
                           && Iter(parts[j]) == Select(Iter(d), pos[j])
                           && (ViewWarnings(parts[j]) != [] <==> d.InMemory? && |pos[j]| == 1))
                      && r.value.1 == WarningsOf(parts)
  {
    var pos :- RandomSplitPositions(d, spec, sh, keepRatio);
    RandomSplitPositionsInBounds(d, spec, sh, keepRatio);
    Ok(ViewsAt(d, pos))
  }

  /** The warnings building each of `views` emits, in order: one per
      in-memory view of a single structure. */
  function WarningsOf(views: seq<Dataset>): (r: seq<string>)
    ensures forall w :: w in r ==> w == SINGLE_STRUCTURE_WARNING
    ensures r == [] <==> forall j :: 0 <= j < |views| ==> ViewWarnings(views[j]) == []
  {
    if views == [] then []
    else
      var rest := WarningsOf(views[1..]);
      assert forall j :: 1 <= j < |views| ==> views[j] == views[1..][j - 1];
      ViewWarnings(views[0]) + rest
  }

  /** `[self[p] for p in positions]`: one view per list of positions, and the
      warnings building them emits, in order. */
  function ViewsAt(d: Dataset, pos: seq<seq<nat>>): (r: (seq<Dataset>, seq<string>))
    requires Valid(d) && forall j :: 0 <= j < |pos| ==> InBounds(pos[j], Len(d))
    ensures |r.0| == |pos|
    ensures forall j :: 0 <= j < |pos| ==>
              && Valid(r.0[j])
              && GetItem(d, Indexing.IntList(pos[j])) == Ok(View(r.0[j], ViewWarnings(r.0[j])))
              && Iter(r.0[j]) == Select(Iter(d), pos[j])
              && (ViewWarnings(r.0[j]) != [] <==> d.InMemory? && |pos[j]| == 1)
    ensures r.1 == WarningsOf(r.0)
  {
    var views := seq(|pos|, j requires 0 <= j < |pos| => ViewAt(d, pos[j]));
    forall j | 0 <= j < |pos|
      ensures GetItem(d, Indexing.IntList(pos[j])) == Ok(View(views[j], ViewWarnings(views[j])))
      ensures Iter(views[j]) == Select(Iter(d), pos[j])
    {
      ListIndexIsView(d, pos[j]);
    }
    (views, WarningsOf(views))
  }

  /** The parts of a random split never hold a structure of the dataset more
      often than the dataset does: together they are a sub-multiset of it. */
  lemma RandomSplitOfStructures(d: Dataset, spec: Utils.SplitSpec, sh: Shuffler,
                                keepRatio: Option<string>)
    requires Valid(d) && ValidShuffler(sh)
    requires RandomSplitOf(d, spec, sh, keepRatio).Ok?
    ensures var parts := RandomSplitOf(d, spec, sh, keepRatio).value.0;
            multiset(Flatten(seq(|parts|, j requires 0 <= j < |parts| => Iter(parts[j])))) <= multiset(Iter(d))
  {
    var parts := RandomSplitOf(d, spec, sh, keepRatio).value.0;
    var pos := RandomSplitPositions(d, spec, sh, keepRatio).value;
    RandomSplitPositionsInBounds(d, spec, sh, keepRatio);
    var iters := seq(|parts|, j requires 0 <= j < |parts| => Iter(parts[j]));
    Utils.SelectPartsSubMultiset(Iter(d), pos, iters);
  }

  /** `k_fold_split(k, fold, shuffle, seed, keep_ratio)`:
      `(self[train_idxs], self[test_idxs])`, with the warnings building train
      and then test emits. */
  function KFoldSplitOf(d: Dataset, k: int, fold: int, shuffle: bool, perm: seq<nat>,
                        keepRatio: Option<string>): (r: Result<(Dataset, Dataset, seq<string>)>)
    requires Valid(d) && IsPermutation(perm, Len(d))
    ensures var pos := KFoldPositionsOf(d, k, fold, shuffle, perm, keepRatio);
            && (r.Ok? <==> pos.Ok?)
            && (r.Err? ==> r.error == pos.error)
            && (r.Ok? ==> && Valid(r.value.0) && Valid(r.value.1)
                          && InBounds(pos.value.0, Len(d)) && InBounds(pos.value.1, Len(d))
                          && GetItem(d, Indexing.IntList(pos.value.0)) == Ok(View(r.value.0, ViewWarnings(r.value.0)))
                          && GetItem(d, Indexing.IntList(pos.value.1)) == Ok(View(r.value.1, ViewWarnings(r.value.1)))
                          && Iter(r.value.0) == Select(Iter(d), pos.value.0)
                          && Iter(r.value.1) == Select(Iter(d), pos.value.1)
                          && r.value.2 == ViewWarnings(r.value.0) + ViewWarnings(r.value.1)
                          && (ViewWarnings(r.value.0) != [] <==> d.InMemory? && |pos.value.0| == 1)
                          && (ViewWarnings(r.value.1) != [] <==> d.InMemory? && |pos.value.1| == 1))
  {
    var pos :- KFoldPositionsOf(d, k, fold, shuffle, perm, keepRatio);
    KFoldPartition(d, k, fold, shuffle, perm, keepRatio);
    ListIndexIsView(d, pos.0);
    ListIndexIsView(d, pos.1);
    var train := ViewAt(d, pos.0);
    var test := ViewAt(d, pos.1);
    Ok((train, test, ViewWarnings(train) + ViewWarnings(test)))
  }

  /** Every successful k-fold split partitions the positions, with or without
      `keep_ratio`. */
  lemma KFoldPartition(d: Dataset, k: int, fold: int, shuffle: bool, perm: seq<nat>, keepRatio: Option<string>)
    requires Valid(d) && IsPermutation(perm, Len(d))
    requires KFoldPositionsOf(d, k, fold, shuffle, perm, keepRatio).Ok?
    ensures var r := KFoldPositionsOf(d, k, fold, shuffle, perm, keepRatio).value;
            && multiset(r.0 + r.1) == multiset(Range(Len(d)))
            && InBounds(r.0, Len(d)) && InBounds(r.1, Len(d))
            && (forall x :: x in r.0 ==> x !in r.1)
  {
    if keepRatio.None? {
      KFoldPlainPartition(d, k, fold, shuffle, perm);
    } else {
      KFoldKeepRatioPartition(d, k, fold, shuffle, perm, keepRatio.value);
    }
  }

  /** Train and test together hold every structure of the dataset exactly as
      often as the dataset does, so their atom counts add up to the dataset's. */
  lemma KFoldSplitOfStructures(d: Dataset, k: int, fold: int, shuffle: bool, perm: seq<nat>, keepRatio: Option<string>)
    requires Valid(d) && IsPermutation(perm, Len(d))
    requires KFoldSplitOf(d, k, fold, shuffle, perm, keepRatio).Ok?
    ensures var (train, test, _) := KFoldSplitOf(d, k, fold, shuffle, perm, keepRatio).value;
            && multiset(Iter(train) + Iter(test)) == multiset(Iter(d))
            && Structures.NAtoms(Iter(train)) + Structures.NAtoms(Iter(test)) == Structures.NAtoms(Iter(d))
  {
    var (train, test, _) := KFoldSplitOf(d, k, fold, shuffle, perm, keepRatio).value;
    var pos := KFoldPositionsOf(d, k, fold, shuffle, perm, keepRatio).value;
    KFoldPartition(d, k, fold, shuffle, perm, keepRatio);
    var xs := Iter(d);
    Utils.SelectAppend(xs, pos.0, pos.1);
    RangeIsPermutation(|xs|);
    Utils.SelectPreservesMultisetEquality(xs, pos.0 + pos.1, Range(|xs|));
    SelectRange(xs);
    NAtomsAppend(Iter(train), Iter(test));
    NAtomsPermutation(Iter(train) + Iter(test), xs);
  }

  // ---------------------------------------------------------------------
  // Saving and loading

  /** The per-atom keys `save` leaves out of the metadata. */
  const STANDARD_ARRAYS: set<string> := {"numbers", "positions"}

  /** An LMDB store written by `save`: the records under "0", "1", ...,
      the metadata, and the description when one is given. */
  datatype LmdbStore = LmdbStore(records: seq<Structure>, metadata: Metadata,
                                 description: Option<DatabaseEntries.Entry>)

  /** `LmdbAtomsDataset.save(path, structures, description)`. */
  function SaveLmdb(ss: seq<Structure>, description: Option<DatabaseEntries.Entry>): (r: LmdbStore)
    ensures r.records == ss && r.description == description
    ensures |r.metadata.sizes| == |ss| && forall i :: 0 <= i < |ss| ==> r.metadata.sizes[i] == |ss[i].numbers|
    ensures Strings.StrictlySorted(r.metadata.perStructure)
    ensures forall key :: key in r.metadata.perStructure <==> exists i :: 0 <= i < |ss| && key in ss[i].info
    ensures Strings.StrictlySorted(r.metadata.perAtom)
    ensures forall key :: key in r.metadata.perAtom <==>
              key !in STANDARD_ARRAYS && exists i :: 0 <= i < |ss| && key in ss[i].arrays
  {
    var perAtom := Utils.Union(ArrayKeySets(ss)) - STANDARD_ARRAYS;
    var perStructure := Utils.Union(InfoKeySets(ss));
    LmdbStore(ss, Metadata(Sizes(ss), Strings.SortedSet(perAtom), Strings.SortedSet(perStructure)), description)
  }

  /** `LmdbAtomsDataset.load(path)`: the subset is every recorded index; the
      stored description is not read back. */
  function LoadLmdb(store: LmdbStore): (r: Dataset)
    ensures r.Lmdb? && r.records == store.records && r.metadata == store.metadata
    ensures Len(r) == |store.metadata.sizes|
    ensures |store.metadata.sizes| <= |store.records| ==> Valid(r)
  {
    Lmdb(store.records, store.metadata, Range(|store.metadata.sizes|))
  }

  /** Saving then loading gives back the structures in order with their
      recorded sizes and atom count; every key all structures share is
      declared, and a key only some structures have is declared too. */
  lemma LmdbRoundTrip(ss: seq<Structure>, description: Option<DatabaseEntries.Entry>)
    ensures var d := LoadLmdb(SaveLmdb(ss, description));
            && Valid(d) && SizesRecorded(d)
            && Iter(d) == ss
            && NAtoms(d) == Structures.NAtoms(ss)
            && (forall key :: key in SharedInfoKeys(ss) ==> key in InfoKeys(d))
            && (forall key :: key in InfoKeys(d) <==> exists i :: 0 <= i < |ss| && key in ss[i].info)
  {
    var d := LoadLmdb(SaveLmdb(ss, description));
    RangeIsPermutation(|ss|);
    SelectRange(ss);
    SizesFollowIteration(d);
    forall key | key in SharedInfoKeys(ss) ensures key in InfoKeys(d) {
      assert ss != [] && key in ss[0].info;
    }
  }

  /** Unlike the in-memory `info`, the LMDB keys are a union: a key that one
      structure has and another lacks is declared, and reading it fails,
      while the in-memory dataset of the same structures does not declare it. */
  lemma LmdbInfoMayFail(ss: seq<Structure>, key: string, i: nat, j: nat)
    requires i < |ss| && j < |ss| && key in ss[i].info && key !in ss[j].info
    ensures var d := LoadLmdb(SaveLmdb(ss, None));
            && key in InfoKeys(d)
            && ReadInfo(d, key) == Err(KeyError(key))
            && key !in InfoKeys(InMemory(ss, None))
  {
    LmdbRoundTrip(ss, None);
    var d := LoadLmdb(SaveLmdb(ss, None));
    assert !AllHaveInfo(Iter(d), key);
    assert key !in SharedInfoKeys(ss);
  }

  /** What `InMemoryAtomsDataset.save` pickles: the structures and the
      description. */
  datatype PickledDataset = PickledDataset(structures: seq<Structure>, description: Option<DatabaseEntries.Entry>)

  function SaveInMemory(ss: seq<Structure>, description: Option<DatabaseEntries.Entry>): (r: PickledDataset)
    ensures r.structures == ss && r.description == description
  {
    PickledDataset(ss, description)
  }

  /** `InMemoryAtomsDataset.load(path)`: `cls(**data)`, with the constructor's
      warnings. */
  function LoadInMemory(p: PickledDataset): (r: (Dataset, seq<string>))
    ensures r.0.InMemory?
  {
    NewInMemory(p.structures, p.description)
  }

  /** The in-memory round trip keeps structures and description; the LMDB one
      keeps the structures but not the description. */
  lemma SaveLoadRoundTrips(ss: seq<Structure>, description: Option<DatabaseEntries.Entry>)
    ensures var d := LoadInMemory(SaveInMemory(ss, description)).0;
            Valid(d) && Iter(d) == ss && d.description == description
    ensures var d := LoadLmdb(SaveLmdb(ss, description));
            Valid(d) && Iter(d) == ss && d.Lmdb?
  {
    LmdbRoundTrip(ss, description);
  }

  /** Which dataset class a database format uses. */
  datatype DatasetClass = InMemoryClass | LmdbClass

  /** `get_file_extension_and_dataset_class(format)`: a dictionary lookup, so
      any other format string is a KeyError. */
  function FileExtensionAndClass(format: string): (r: Result<(string, DatasetClass)>)
    ensures r.Ok? <==> format in {"lmdb", "memory"}
    ensures r.Err? ==> r.error == KeyError(format)
    ensures r.Ok? ==> (r.value.1 == LmdbClass <==> format == "lmdb")
  {
    if format == "lmdb" then Ok((".lmdb", LmdbClass))
    else if format == "memory" then Ok((".pkl", InMemoryClass))
    else Err(KeyError(format))
  }

  /** Every format a validated database entry can hold has an extension and a
      class, and the two formats give different extensions. */
  lemma EntryFormatsHaveClass(format: DatabaseEntries.Format)
    ensures var name := if format.Lmdb? then "lmdb" else "memory";
            && FileExtensionAndClass(name).Ok?
            && FileExtensionAndClass(name).value.1 == (if format.Lmdb? then LmdbClass else InMemoryClass)
    ensures FileExtensionAndClass("lmdb").value.0 != FileExtensionAndClass("memory").value.0
  {
  }
}
