/** The split and set helpers of `load_atoms.utils`: `random_split`,
    `k_fold_split`, `split_keeping_ratio`, `choose_n`, `intersect`, `union`,
    the environment flags and the front-end URL.

    `np.random.RandomState(seed).permutation(n)` is a parameter: a sequence
    `perm` with `IsPermutation(perm, n)`, or a `Shuffler` giving one such
    permutation per length when the same seed is used for lists of several
    lengths.
 */
module Utils {
  import opened Wrappers
  import opened Seqs
  import Arith
  import Indexing

  const FRONTEND_URL: string := "https://jla-gardner.github.io/load-atoms/datasets/"
  const BASE_REMOTE_URL: string := "https://github.com/jla-gardner/load-atoms/raw/main/database/"

  /** The process environment, `os.environ`. */
  type Env = map<string, string>

  /** `debug_mode()`: `LOAD_ATOMS_DEBUG` is set to exactly "1" (unset counts as "0"). */
  function DebugMode(env: Env): (r: bool)
    ensures r <==> "LOAD_ATOMS_DEBUG" in env && env["LOAD_ATOMS_DEBUG"] == "1"
  {
    (if "LOAD_ATOMS_DEBUG" in env then env["LOAD_ATOMS_DEBUG"] else "0") == "1"
  }

  /** `testing()`: pytest has published the current test's name. */
  function Testing(env: Env): bool {
    "PYTEST_CURRENT_TEST" in env
  }

  /** `frontend_url(info)`: the documentation page of a dataset. */
  function FrontendUrl(name: string): (r: string)
    ensures |r| == |FRONTEND_URL| + |name| + 5
    ensures r[..|FRONTEND_URL|] == FRONTEND_URL && r[|FRONTEND_URL|..|FRONTEND_URL| + |name|] == name
    ensures r[|r| - 5..] == ".html"
  {
    FRONTEND_URL + name + ".html"
  }

  /** Different dataset names get different pages: the name is read back
      from between the base URL and the `.html` suffix. */
  lemma FrontendUrlInjective(a: string, b: string)
    ensures FrontendUrl(a)[|FRONTEND_URL|..|FrontendUrl(a)| - 5] == a
    ensures FrontendUrl(a) == FrontendUrl(b) ==> a == b
  {
    var u := FrontendUrl(a);
    assert u[|FRONTEND_URL|..|u| - 5] == a;
    if u == FrontendUrl(b) {
      assert |a| == |b|;
      assert FrontendUrl(b)[|FRONTEND_URL|..|u| - 5] == b;
    }
  }

  /** The lines of a usage notice, as every version of the library builds
      them: a license line if there is one, then a citation line if there is
      one, then always the line pointing to more information. */
  function UsageNotice(licenseLine: Option<string>, citationLine: Option<string>, moreLine: string): (r: seq<string>)
    ensures |r| == 1 + (if licenseLine.Some? then 1 else 0) + (if citationLine.Some? then 1 else 0)
    ensures r[|r| - 1] == moreLine
    ensures licenseLine.Some? ==> r[0] == licenseLine.value
    ensures citationLine.Some? ==> r[|r| - 2] == citationLine.value
    ensures forall l :: l in r ==> l == moreLine || Some(l) == licenseLine || Some(l) == citationLine
  {
    (if licenseLine.Some? then [licenseLine.value] else [])
    + (if citationLine.Some? then [citationLine.value] else [])
    + [moreLine]
  }

  // ---------------------------------------------------------------------
  // Set helpers.

  /** `union(things)`: every key that occurs in some member; empty for no members. */
  function Union(things: seq<set<string>>): (r: set<string>)
    ensures forall x :: x in r <==> exists i :: 0 <= i < |things| && x in things[i]
  {
    if things == [] then {}
    else
      var rest := Union(things[1..]);
      assert forall i :: 1 <= i < |things| ==> things[i] == things[1..][i - 1];
      things[0] + rest
  }

  /** `intersect(things)`: the keys every member shares; empty for no members. */
  function Intersect(things: seq<set<string>>): (r: set<string>)
    ensures things == [] ==> r == {}
    ensures things != [] ==> forall x :: x in r <==> forall i :: 0 <= i < |things| ==> x in things[i]
  {
    if |things| <= 1 then (if things == [] then {} else things[0])
    else
      var rest := Intersect(things[1..]);
      assert forall i :: 1 <= i < |things| ==> things[i] == things[1..][i - 1];
      things[0] * rest
  }

  // ---------------------------------------------------------------------
  // random_split

  type PosNat = n: nat | n > 0 witness 1

  /** A non-negative fraction `num / den`, standing in for a Python float. */
  datatype Frac = Frac(num: nat, den: PosNat)

  /** `int(f * len)`: truncation of a non-negative product. */
  function FracOf(f: Frac, len: nat): (r: nat)
    ensures r * f.den <= f.num * len < (r + 1) * f.den
  {
    f.num * len / f.den
  }

  /** The `splits` argument: absolute sizes, or fractions of the list length. */
  datatype SplitSpec = Counts(counts: seq<nat>) | Fractions(fracs: seq<Frac>)

  function SpecLength(spec: SplitSpec): nat {
    match spec
    case Counts(cs) => |cs|
    case Fractions(fs) => |fs|
  }

  /** The sizes `random_split` works with: `splits[0]` decides whether they are fractions. */
  function SplitSizes(spec: SplitSpec, len: nat): (r: Result<seq<nat>>)
    ensures r.Err? <==> SpecLength(spec) == 0
    ensures r.Err? ==> r.error.IndexError?
    ensures r.Ok? ==> |r.value| == SpecLength(spec)
    ensures r.Ok? && spec.Counts? ==> r.value == spec.counts
    ensures r.Ok? && spec.Fractions? ==>
      forall j :: 0 <= j < |r.value| ==> r.value[j] * spec.fracs[j].den <= spec.fracs[j].num * len
    ensures r.Ok? && spec.Fractions? ==>
      forall j :: 0 <= j < |r.value| ==> spec.fracs[j].num * len < (r.value[j] + 1) * spec.fracs[j].den
  {
    match spec
    case Counts(cs) => if cs == [] then Err(IndexError("list index out of range")) else Ok(cs)
    case Fractions(fs) =>
      if fs == [] then Err(IndexError("list index out of range"))
      else Ok(seq(|fs|, j requires 0 <= j < |fs| => FracOf(fs[j], len)))
  }

  /** The requested sizes as fractions: a count `c` is `c / 1`. */
  function Entries(spec: SplitSpec): (r: seq<Frac>)
    ensures |r| == SpecLength(spec)
    ensures spec.Fractions? ==> r == spec.fracs
    ensures spec.Counts? ==> forall j :: 0 <= j < |r| ==> r[j] == Frac(spec.counts[j], 1)
  {
    match spec
    case Counts(cs) => seq(|cs|, j requires 0 <= j < |cs| => Frac(cs[j], 1))
    case Fractions(fs) => fs
  }

  /** `a + b`, over the product of the denominators. */
  function Add(a: Frac, b: Frac): Frac {
    Arith.PositiveProduct(a.den, b.den);
    Frac(a.num * b.den + b.num * a.den, a.den * b.den)
  }

  /** `sum(fs)`. */
  function FracSum(fs: seq<Frac>): Frac {
    if fs == [] then Frac(0, 1) else Add(fs[0], FracSum(fs[1..]))
  }

  /** A sum of fractions is zero exactly when every numerator is. */
  lemma {:induction false} FracSumZero(fs: seq<Frac>)
    ensures FracSum(fs).num == 0 <==> forall j :: 0 <= j < |fs| ==> fs[j].num == 0
  {
    if fs != [] {
      FracSumZero(fs[1..]);
      var t := FracSum(fs[1..]);
      Arith.PositiveProduct(fs[0].den, t.den);
      assert FracSum(fs).num == fs[0].num * t.den + t.num * fs[0].den;
      assert forall j :: 1 <= j < |fs| ==> fs[j] == fs[1..][j - 1];
      if fs[0].num > 0 {
        Arith.PositiveProduct(fs[0].num, t.den);
      }
      if t.num > 0 {
        Arith.PositiveProduct(t.num, fs[0].den);
      }
    }
  }

  /** `[s / sum(splits) for s in splits]`, in exact arithmetic. Sizes that
      add up to zero raise ZeroDivisionError; an empty list divides nothing. */
  function Normalised(spec: SplitSpec): (r: Result<SplitSpec>)
    ensures r.Err? <==> SpecLength(spec) > 0 && FracSum(Entries(spec)).num == 0
    ensures r.Err? ==> r.error.ZeroDivisionError?
    ensures r.Ok? ==> r.value.Fractions? && |r.value.fracs| == SpecLength(spec)
    ensures r.Ok? ==> var t := FracSum(Entries(spec));
      forall j :: 0 <= j < |r.value.fracs| ==>
        r.value.fracs[j].num * t.num * Entries(spec)[j].den == Entries(spec)[j].num * t.den * r.value.fracs[j].den
  {
    var es := Entries(spec);
    var t := FracSum(es);
    if es == [] then Ok(Fractions([]))
    else if t.num == 0 then Err(ZeroDivisionError("division by zero"))
    else
      var fs := seq(|es|, j requires 0 <= j < |es| => Scaled(es[j], t));
      Ok(Fractions(fs))
  }

  /** `f / t` for a non-zero `t`. */
  function Scaled(f: Frac, t: Frac): (r: Frac)
    requires t.num > 0
    ensures r.num * t.num * f.den == f.num * t.den * r.den
  {
    Arith.PositiveProduct(f.den, t.num);
    var r := Frac(f.num * t.den, f.den * t.num);
    assert r.num * t.num * f.den == f.num * t.den * (t.num * f.den);
    r
  }

  /** Dividing every fraction by `t` divides their sum by `t`. */
  lemma {:induction false} FracSumScaled(fs: seq<Frac>, t: Frac)
    requires t.num > 0
    ensures var g := FracSum(seq(|fs|, j requires 0 <= j < |fs| => Scaled(fs[j], t)));
      g.num * t.num * FracSum(fs).den == FracSum(fs).num * t.den * g.den
  {
    if fs != [] {
      var gs := seq(|fs|, j requires 0 <= j < |fs| => Scaled(fs[j], t));
      var rest := fs[1..];
      assert gs[1..] == seq(|rest|, j requires 0 <= j < |rest| => Scaled(rest[j], t));
      FracSumScaled(rest, t);
      var g0, f0 := gs[0], fs[0];
      var G, F := FracSum(gs[1..]), FracSum(rest);
      assert FracSum(gs) == Add(g0, G);
      assert FracSum(fs) == Add(f0, F);
      Arith.CrossSum(g0.num, g0.den, G.num, G.den, f0.num, f0.den, F.num, F.den, t.num, t.den);
    }
  }

  /** The normalised fractions of a non-empty list add up to one. */
  lemma NormalisedSumsToOne(spec: SplitSpec)
    requires SpecLength(spec) > 0 && Normalised(spec).Ok?
    ensures FracSum(Normalised(spec).value.fracs).num == FracSum(Normalised(spec).value.fracs).den
  {
    var es := Entries(spec);
    var t := FracSum(es);
    FracSumScaled(es, t);
    var fs := Normalised(spec).value.fracs;
    assert fs == seq(|es|, j requires 0 <= j < |es| => Scaled(es[j], t));
    var g := FracSum(fs);
    Arith.CancelCross(g.num, g.den, t.num, t.den);
  }

  /** The positions that land in each part: consecutive runs of the permutation,
      the run for part `j` running from `cumsum[j - 1]` to `cumsum[j]`. */
  function SplitPositions(perm: seq<nat>, sizes: seq<nat>): (r: seq<seq<nat>>)
    requires Sum(sizes) <= |perm|
    ensures |r| == |sizes|
    ensures forall j :: 0 <= j < |sizes| ==> |r[j]| == sizes[j]
    ensures Flatten(r) == perm[..Sum(sizes)]
  {
    if sizes == [] then []
    else
      SumCons(sizes);
      var rest := SplitPositions(perm[sizes[0]..], sizes[1..]);
      FlattenCons(perm[..sizes[0]], rest);
      assert perm[..sizes[0]] + perm[sizes[0]..][..Sum(sizes[1..])] == perm[..Sum(sizes)];
      [perm[..sizes[0]]] + rest
  }

  /** Every run is made of entries of the permutation. */
  lemma SplitPositionsInBounds(perm: seq<nat>, sizes: seq<nat>, n: nat)
    requires Sum(sizes) <= |perm| && InBounds(perm, n)
    ensures forall j :: 0 <= j < |sizes| ==> InBounds(SplitPositions(perm, sizes)[j], n)
  {
    var pos := SplitPositions(perm, sizes);
    forall j, i | 0 <= j < |sizes| && 0 <= i < |pos[j]| ensures pos[j][i] < n {
      FlattenContains(pos, j, pos[j][i]);
    }
  }

  /** `random_split(things, splits, seed)`, with `perm` the seeded permutation of
      `range(len(things))`. */
  function RandomSplit<T>(things: seq<T>, spec: SplitSpec, perm: seq<nat>): (r: Result<seq<seq<T>>>)
    requires IsPermutation(perm, |things|)
    ensures r.Ok? ==> |r.value| == SpecLength(spec)
  {
    var sizes :- SplitSizes(spec, |things|);
    if Sum(sizes) > |things| then Err(ValueError("The sum of the splits cannot exceed the dataset size."))
    else
      var pos := SplitPositions(perm, sizes);
      SplitPositionsInBounds(perm, sizes, |things|);
      Ok(seq(|pos|, j requires 0 <= j < |pos| => Select(things, pos[j])))
  }

  /** The error cases: no sizes at all, or sizes adding up to more than the list holds. */
  lemma RandomSplitErrors<T>(things: seq<T>, spec: SplitSpec, perm: seq<nat>)
    requires IsPermutation(perm, |things|)
    ensures SpecLength(spec) == 0 ==> RandomSplit(things, spec, perm) == Err(IndexError("list index out of range"))
    ensures SpecLength(spec) > 0 ==>
      (RandomSplit(things, spec, perm).Err? <==> Sum(SplitSizes(spec, |things|).value) > |things|)
  {
  }

  /** Each part has the requested size, and the parts are distinct runs of the permutation. */
  lemma RandomSplitParts<T>(things: seq<T>, spec: SplitSpec, perm: seq<nat>)
    requires IsPermutation(perm, |things|)
    requires RandomSplit(things, spec, perm).Ok?
    ensures var sizes := SplitSizes(spec, |things|).value;
      var r := RandomSplit(things, spec, perm).value;
      && Sum(sizes) <= |things|
      && (forall j :: 0 <= j < |r| ==> |r[j]| == sizes[j])
      && (forall j :: 0 <= j < |r| ==> IsSelection(r[j], things, SplitPositions(perm, sizes)[j]))
      && Distinct(Flatten(SplitPositions(perm, sizes)))
  {
    var sizes := SplitSizes(spec, |things|).value;
    var m := Sum(sizes);
    assert m <= |things|;
    assert Distinct(perm[..m]) by {
      forall a, b | 0 <= a < b < m ensures perm[..m][a] != perm[..m][b] {
        assert perm[..m][a] == perm[a] && perm[..m][b] == perm[b];
      }
    }
  }

  /** Selecting distinct positions from a distinct list gives a distinct list. */
  lemma SelectDistinct<T>(xs: seq<T>, idx: seq<nat>)
    requires InBounds(idx, |xs|) && Distinct(xs) && Distinct(idx)
    ensures Distinct(Select(xs, idx))
  {
  }

  /** Selecting with a concatenation of index lists concatenates the selections. */
  lemma {:induction false} SelectFlatten<T>(xs: seq<T>, pos: seq<seq<nat>>)
    requires forall j :: 0 <= j < |pos| ==> InBounds(pos[j], |xs|)
    ensures InBounds(Flatten(pos), |xs|)
    ensures Flatten(seq(|pos|, j requires 0 <= j < |pos| => Select(xs, pos[j]))) == Select(xs, Flatten(pos))
  {
    var parts := seq(|pos|, j requires 0 <= j < |pos| => Select(xs, pos[j]));
    if pos != [] {
      var init := pos[..|pos| - 1];
      SelectFlatten(xs, init);
      var initParts := seq(|init|, j requires 0 <= j < |init| => Select(xs, init[j]));
      assert parts[..|parts| - 1] == initParts;
      SelectAppend(xs, Flatten(init), pos[|pos| - 1]);
    }
  }

  lemma SelectAppend<T>(xs: seq<T>, a: seq<nat>, b: seq<nat>)
    requires InBounds(a, |xs|) && InBounds(b, |xs|)
    ensures InBounds(a + b, |xs|)
    ensures Select(xs, a + b) == Select(xs, a) + Select(xs, b)
  {
  }

  /** The parts never invent or duplicate items: together they are a sub-multiset
      of the input. */
  lemma RandomSplitSubMultiset<T>(things: seq<T>, spec: SplitSpec, perm: seq<nat>)
    requires IsPermutation(perm, |things|)
    requires RandomSplit(things, spec, perm).Ok?
    ensures multiset(Flatten(RandomSplit(things, spec, perm).value)) <= multiset(things)
  {
    RandomSplitParts(things, spec, perm);
    var sizes := SplitSizes(spec, |things|).value;
    var pos := SplitPositions(perm, sizes);
    var r := RandomSplit(things, spec, perm).value;
    SplitPositionsInBounds(perm, sizes, |things|);
    SelectFlatten(things, pos);
    assert r == seq(|pos|, j requires 0 <= j < |pos| => Select(things, pos[j]));
    SelectDistinctSubMultiset(things, Flatten(pos));
  }

  /** The parts of a random split of a distinct list are pairwise disjoint, each
      is distinct, and every element of a part comes from the list. */
  lemma RandomSplitDisjoint<T>(things: seq<T>, spec: SplitSpec, perm: seq<nat>)
    requires IsPermutation(perm, |things|) && Distinct(things)
    requires RandomSplit(things, spec, perm).Ok?
    ensures var r := RandomSplit(things, spec, perm).value;
      && Distinct(Flatten(r))
      && (forall j, x :: 0 <= j < |r| && x in r[j] ==> x in things)
  {
    RandomSplitParts(things, spec, perm);
    var sizes := SplitSizes(spec, |things|).value;
    var pos := SplitPositions(perm, sizes);
    var r := RandomSplit(things, spec, perm).value;
    SplitPositionsInBounds(perm, sizes, |things|);
    SelectFlatten(things, pos);
    assert r == seq(|pos|, j requires 0 <= j < |pos| => Select(things, pos[j]));
    SelectDistinct(things, Flatten(pos));
  }

  // ---------------------------------------------------------------------
  // k_fold_split

  /** `(xs[:-t], xs[-t:])`. Because `-0 == 0`, a zero `t` gives an empty first
      part and the whole list as the second. */
  function SplitTail<T>(xs: seq<T>, t: nat): (r: (seq<T>, seq<T>))
    requires t <= |xs|
    ensures r.0 + r.1 == xs
    ensures t > 0 ==> |r.1| == t
    ensures t == 0 ==> r.0 == []
  {
    if t == 0 then ([], xs)
    else
      assert xs == xs[..|xs| - t] + xs[|xs| - t..];
      (xs[..|xs| - t], xs[|xs| - t..])
  }

  /** The positions `k_fold_split` assigns to train and test: roll `range(n)` by
      `fold * n // k`, then the last `n // k` entries are the test part. */
  function KFoldPositions(n: nat, k: nat, fold: nat): (r: (seq<nat>, seq<nat>))
    requires fold < k
    ensures |r.0| + |r.1| == n
    ensures InBounds(r.0, n) && InBounds(r.1, n)
  {
    var t := TestSize(n, k);
    var shift := fold * n / k;
    var rolled := Roll(Range(n), shift);
    RollRangeIsPermutation(n, shift);
    var r := SplitTail(rolled, t);
    PartsInBounds(r.0, r.1, n);
    r
  }

  /** `n // k`, the size of a test fold. */
  function TestSize(n: nat, k: nat): (t: nat)
    requires k > 0
    ensures t <= n
    ensures t * k <= n < (t + 1) * k
  {
    Arith.DivAtMost(n, k);
    n / k
  }

  /** Both halves of an in-range list are in range. */
  lemma PartsInBounds(a: seq<nat>, b: seq<nat>, n: nat)
    requires InBounds(a + b, n)
    ensures InBounds(a, n) && InBounds(b, n)
  {
    forall i | 0 <= i < |a| ensures a[i] < n {
      assert (a + b)[i] == a[i];
    }
    forall i | 0 <= i < |b| ensures b[i] < n {
      assert (a + b)[|a| + i] == b[i];
    }
  }

  /** `k_fold_split(things, k, fold)`; the assertion `0 <= fold < k` fails otherwise. */
  function KFoldSplit<T>(things: seq<T>, k: int, fold: int): (r: Result<(seq<T>, seq<T>)>)
    ensures r.Err? <==> !(0 <= fold < k)
    ensures r.Err? ==> r.error.AssertionError?
    ensures r.Ok? ==> |r.value.0| + |r.value.1| == |things|
  {
    if !(0 <= fold < k) then Err(AssertionError("0 <= fold < k"))
    else
      var pos := KFoldPositions(|things|, k, fold);
      Ok((Select(things, pos.0), Select(things, pos.1)))
  }

  /** Train followed by test is `range(n)` rolled, so the two parts are disjoint
      and together cover every position exactly once. */
  lemma KFoldPositionsPartition(n: nat, k: nat, fold: nat)
    requires fold < k
    ensures var r := KFoldPositions(n, k, fold);
      && r.0 + r.1 == Roll(Range(n), fold * n / k)
      && IsPermutation(r.0 + r.1, n)
      && multiset(r.0 + r.1) == multiset(Range(n))
  {
    RollRangeIsPermutation(n, fold * n / k);
  }

  /** Sizes: with at least `k` items the test part has `n // k` of them; with fewer,
      train is empty and every item is in test (because `idxs[:-0]` is empty). */
  lemma KFoldSizes<T>(things: seq<T>, k: nat, fold: nat)
    requires fold < k
    ensures var r := KFoldSplit(things, k, fold).value;
      && (|things| >= k ==> |r.1| == |things| / k && |r.0| == |things| - |things| / k)
      && (|things| < k ==> r.0 == [] && multiset(r.1) == multiset(things))
  {
    var n := |things|;
    var (tr, te) := KFoldPositions(n, k, fold);
    Arith.DivAtMost(n, k);
    if n < k {
      Arith.ModUnique(n, k, 0, n);
      KFoldPositionsPartition(n, k, fold);
      SelectPermutation(things, te);
    } else {
      Arith.DivLowerBound(n, k, 1);
    }
  }

  /** Selecting with a permutation only reorders the list. */
  lemma SelectPermutation<T>(xs: seq<T>, p: seq<nat>)
    requires IsPermutation(p, |xs|)
    ensures multiset(Select(xs, p)) == multiset(xs)
  {
    PermutationMultiset(p, |xs|);
    SelectPreservesMultisetEquality(xs, p, Range(|xs|));
    SelectRange(xs);
  }

  /** A permutation of `range(n)` has exactly the values of `range(n)`. */
  lemma PermutationMultiset(p: seq<nat>, n: nat)
    requires IsPermutation(p, n)
    ensures multiset(p) == multiset(Range(n))
  {
    PermutationCovers(p, n);
    RangeIsPermutation(n);
    forall x | x in p ensures x in Range(n) {
      assert Range(n)[x] == x;
    }
    DistinctSubMultiset(p, Range(n));
    forall x | x in Range(n) ensures x in p {
      var i :| 0 <= i < n && Range(n)[i] == x;
    }
    DistinctSubMultiset(Range(n), p);
  }

  /** A distinct list whose values all occur in `ys` is a sub-multiset of `ys`. */
  lemma DistinctSubMultiset<T>(xs: seq<T>, ys: seq<T>)
    requires Distinct(xs) && forall x :: x in xs ==> x in ys
    ensures multiset(xs) <= multiset(ys)
  {
    DistinctSingleCounts(xs);
    forall x ensures multiset(xs)[x] <= multiset(ys)[x] {
      if x in xs {
        assert x in multiset(ys);
      }
    }
  }

  /** Selecting with a sub-multiset of positions selects a sub-multiset of values. */
  lemma {:induction false} SelectSubMultiset<T>(xs: seq<T>, a: seq<nat>, b: seq<nat>)
    requires InBounds(a, |xs|) && InBounds(b, |xs|) && multiset(a) <= multiset(b)
    ensures multiset(Select(xs, a)) <= multiset(Select(xs, b))
    decreases |a|
  {
    if a != [] {
      assert a[0] in multiset(b);
      var j :| 0 <= j < |b| && b[j] == a[0];
      var b' := b[..j] + b[j + 1..];
      RemoveMatched(a, b, j);
      SelectRemoveAt(xs, b, j);
      SelectSubMultiset(xs, a[1..], b');
      assert Select(xs, a) == [xs[a[0]]] + Select(xs, a[1..]);
      MultisetPlusMonotone(multiset(Select(xs, a[1..])), multiset(Select(xs, b')), xs[a[0]]);
    }
  }

  /** Dropping the first entry of `a` and a matching entry of `b` keeps `a`
      a sub-multiset of `b`. */
  lemma RemoveMatched(a: seq<nat>, b: seq<nat>, j: nat)
    requires a != [] && j < |b| && b[j] == a[0] && multiset(a) <= multiset(b)
    ensures multiset(a[1..]) <= multiset(b[..j] + b[j + 1..])
  {
    assert a == [a[0]] + a[1..];
    assert multiset(a[1..]) == multiset(a) - multiset{a[0]};
    MultisetRemoveAt(b, j);
    MultisetMinusMonotone(multiset(a), multiset(b), a[0]);
  }

  /** Selecting without entry `j` loses exactly the value entry `j` selects. */
  lemma SelectRemoveAt<T>(xs: seq<T>, idx: seq<nat>, j: nat)
    requires InBounds(idx, |xs|) && j < |idx|
    ensures InBounds(idx[..j] + idx[j + 1..], |xs|)
    ensures multiset(Select(xs, idx))
         == multiset{xs[idx[j]]} + multiset(Select(xs, idx[..j] + idx[j + 1..]))
  {
    var l, m, r := idx[..j], [idx[j]], idx[j + 1..];
    assert idx == l + (m + r);
    SelectAppend(xs, m, r);
    SelectAppend(xs, l, m + r);
    SelectAppend(xs, l, r);
    assert Select(xs, m) == [xs[idx[j]]];
    MultisetMiddle(Select(xs, l), xs[idx[j]], Select(xs, r));
  }

  lemma MultisetMiddle<T>(a: seq<T>, x: T, b: seq<T>)
    ensures multiset(a + ([x] + b)) == multiset{x} + multiset(a + b)
  {
  }

  lemma MultisetPlusMonotone<T>(a: multiset<T>, b: multiset<T>, x: T)
    requires a <= b
    ensures multiset{x} + a <= multiset{x} + b
  {
  }

  lemma MultisetMinusMonotone<T>(a: multiset<T>, b: multiset<T>, x: T)
    requires a <= b
    ensures a - multiset{x} <= b - multiset{x}
  {
  }

  /** Index lists with the same values select the same values. */
  lemma SelectPreservesMultisetEquality<T>(xs: seq<T>, a: seq<nat>, b: seq<nat>)
    requires InBounds(a, |xs|) && InBounds(b, |xs|) && multiset(a) == multiset(b)
    ensures multiset(Select(xs, a)) == multiset(Select(xs, b))
  {
    SelectSubMultiset(xs, a, b);
    SelectSubMultiset(xs, b, a);
  }

  /** Distinct in-range positions select a sub-multiset of the list. */
  lemma SelectDistinctSubMultiset<T>(xs: seq<T>, idx: seq<nat>)
    requires InBounds(idx, |xs|) && Distinct(idx)
    ensures multiset(Select(xs, idx)) <= multiset(xs)
  {
    forall x | x in idx ensures x in Range(|xs|) {
      assert Range(|xs|)[x] == x;
    }
    DistinctSubMultiset(idx, Range(|xs|));
    RangeIsPermutation(|xs|);
    SelectSubMultiset(xs, idx, Range(|xs|));
    SelectRange(xs);
  }

  /** Parts selected by lists of positions that are distinct across all
      lists hold, together, a sub-multiset of the list. */
  lemma SelectPartsSubMultiset<T>(xs: seq<T>, pos: seq<seq<nat>>, parts: seq<seq<T>>)
    requires forall j :: 0 <= j < |pos| ==> InBounds(pos[j], |xs|)
    requires Distinct(Flatten(pos))
    requires |parts| == |pos| && forall j :: 0 <= j < |pos| ==> parts[j] == Select(xs, pos[j])
    ensures multiset(Flatten(parts)) <= multiset(xs)
  {
    var selected := seq(|pos|, j requires 0 <= j < |pos| => Select(xs, pos[j]));
    forall j | 0 <= j < |pos| ensures parts[j] == selected[j] {
    }
    assert parts == selected;
    SelectFlatten(xs, pos);
    SelectDistinctSubMultiset(xs, Flatten(pos));
  }

  /** With `s + t <= n` and `t > 0`, the last `t` entries of `range(n)` rolled by
      `s` are the run `n - s - t, ..., n - s - 1`. */
  lemma RolledRangeTail(n: nat, s: nat, t: nat)
    requires 0 < t && s + t <= n
    ensures forall p :: n - t <= p < n ==> Roll(Range(n), s)[p] == p - s
  {
    Arith.ModUnique(s, n, 0, s);
    var idxs := Roll(Range(n), s);
    assert idxs == Range(n)[n - s..] + Range(n)[..n - s];
    forall p | n - t <= p < n ensures idxs[p] == p - s {
      assert idxs[p] == Range(n)[..n - s][p - s];
    }
  }

  /** When `n >= k`, the test part of a fold is the contiguous run
      `[n - s - n // k, n - s)` of positions, where `s = fold * n // k`. */
  lemma KFoldTestRun(n: nat, k: nat, fold: nat)
    requires fold < k && n >= k
    ensures var t := n / k; var s := fold * n / k;
      && s + t <= n
      && |KFoldPositions(n, k, fold).1| == t
      && forall j :: 0 <= j < t ==> KFoldPositions(n, k, fold).1[j] == n - s - t + j
  {
    var t := n / k;
    var s := fold * n / k;
    Arith.FoldShiftBound(n, k, fold);
    Arith.DivLowerBound(n, k, 1);
    RolledRangeTail(n, s, t);
    var te := KFoldPositions(n, k, fold).1;
    forall j | 0 <= j < t ensures te[j] == n - s - t + j {
      assert te[j] == Roll(Range(n), s)[n - t + j];
      assert n - t <= n - t + j < n;
    }
  }

  /** For `n >= k`, the test parts of two different folds share no position. */
  lemma KFoldTestsDisjoint(n: nat, k: nat, f1: nat, f2: nat)
    requires f1 < f2 < k && n >= k
    ensures forall x :: x in KFoldPositions(n, k, f1).1 ==> x !in KFoldPositions(n, k, f2).1
  {
    var t := n / k;
    var s1 := f1 * n / k;
    var s2 := f2 * n / k;
    KFoldTestRun(n, k, f1);
    KFoldTestRun(n, k, f2);
    Arith.FoldShiftsApart(n, k, f1, f2);
    RunsApart(KFoldPositions(n, k, f1).1, KFoldPositions(n, k, f2).1, n - s1 - t, n - s2 - t, t);
  }

  /** Two runs of `t` consecutive numbers, the second ending where the first
      starts or earlier, share nothing. */
  lemma RunsApart(a: seq<nat>, b: seq<nat>, loA: int, loB: int, t: nat)
    requires |a| == t == |b| && loB + t <= loA
    requires forall j :: 0 <= j < t ==> a[j] == loA + j
    requires forall j :: 0 <= j < t ==> b[j] == loB + j
    ensures forall x :: x in a ==> x !in b
  {
    forall x | x in a ensures x !in b {
      assert loA <= x;
      forall j | 0 <= j < t ensures b[j] != x {
        assert b[j] < loB + t;
      }
    }
  }

  /** When `k` divides `n`, the test parts of the `k` folds tile `range(n)`: position
      `x` is tested in fold `(n - 1 - x) // (n // k)`. */
  lemma KFoldTestsCover(n: nat, k: nat, x: nat)
    requires 0 < k <= n && n % k == 0 && x < n
    ensures var f := (n - 1 - x) / (n / k);
      f < k && x in KFoldPositions(n, k, f).1
  {
    var t := n / k;
    Arith.DivLowerBound(n, k, 1);
    var f, d := FoldOfPosition(n, k, t, x);
    KFoldTestRun(n, k, f);
    var j := x - (n - f * t - t);
    assert KFoldPositions(n, k, f).1[j] == x;
  }

  /** The arithmetic behind `KFoldTestsCover`: with `n == t * k`, fold
      `f = (n - 1 - x) // t` rotates by `f * t` and its test run holds `x`. */
  lemma FoldOfPosition(n: nat, k: nat, t: nat, x: nat) returns (f: nat, d: nat)
    requires 0 < k && 0 < t && t == n / k && n % k == 0 && x < n
    ensures f == (n - 1 - x) / t && f < k
    ensures f * n / k == f * t
    ensures n - f * t - t <= x < n - f * t
  {
    assert n == t * k;
    f := (n - 1 - x) / t;
    d := (n - 1 - x) % t;
    assert n - 1 - x == f * t + d;
    assert f * t < k * t;
    assert (f - k + 1) * t == f * t - k * t + t;
    Arith.BelowOneMultiple(f - k + 1, t);
    assert f * n == (f * t) * k;
    Arith.ModUnique(f * n, k, f * t, 0);
  }

  // ---------------------------------------------------------------------
  // split_keeping_ratio

  /** Group ids in order of first appearance (the key order of the `defaultdict`). */
  function GroupOrder<G(==)>(ids: seq<G>): (r: seq<G>)
    ensures Distinct(r)
    ensures forall i :: 0 <= i < |ids| ==> ids[i] in r
    ensures forall i :: 0 <= i < |r| ==> r[i] in ids
  {
    if ids == [] then []
    else
      var o := GroupOrder(ids[..|ids| - 1]);
      assert forall i :: 0 <= i < |ids| - 1 ==> ids[i] == ids[..|ids| - 1][i];
      if ids[|ids| - 1] in o then o else o + [ids[|ids| - 1]]
  }

  /** The items whose id is `g`, in their original order. */
  function GroupOf<T, G(==)>(things: seq<T>, ids: seq<G>, g: G): (r: seq<T>)
    requires |things| == |ids|
    ensures forall i :: 0 <= i < |r| ==> r[i] in things
  {
    if things == [] then []
    else
      var init := GroupOf(things[..|things| - 1], ids[..|ids| - 1], g);
      init + (if ids[|ids| - 1] == g then [things[|things| - 1]] else [])
  }

  /** The groups, one per id in first-appearance order. */
  function Groups<T, G(==)>(things: seq<T>, ids: seq<G>): (r: seq<seq<T>>)
    requires |things| == |ids|
    ensures |r| == |GroupOrder(ids)|
  {
    var order := GroupOrder(ids);
    seq(|order|, i requires 0 <= i < |order| => GroupOf(things, ids, order[i]))
  }

  /** Two items share a group exactly when their ids are equal. */
  lemma {:induction false} GroupsOfTwo<T, G>(a: T, b: T, g: G, h: G)
    ensures g == h ==> Groups([a, b], [g, h]) == [[a, b]]
    ensures g != h ==> Groups([a, b], [g, h]) == [[a], [b]]
  {
    assert [a, b][..1] == [a] && [g, h][..1] == [g];
    assert [a][..0] == [] && [g][..0] == [];
    assert GroupOrder([g]) == [g];
    assert GroupOf([a], [g], g) == [a];
    assert GroupOf([a], [g], h) == (if g == h then [a] else []);
    assert GroupOrder([g, h]) == (if g == h then [g] else [g, h]);
    assert GroupOf([a, b], [g, h], g) == (if g == h then [a, b] else [a]);
    assert g != h ==> GroupOf([a, b], [g, h], h) == [b];
  }

  /** Part `i` of the merged split: part `i` of every group that has one, in group order. */
  function MergePart<T>(groupSplits: seq<seq<seq<T>>>, i: nat): seq<T> {
    Flatten(seq(|groupSplits|, g requires 0 <= g < |groupSplits| =>
      if i < |groupSplits[g]| then groupSplits[g][i] else []))
  }

  /** Applies the splitting function to every group, stopping at the first error. */
  function SplitGroups<T>(groups: seq<seq<T>>, split: seq<T> -> Result<seq<seq<T>>>): (r: Result<seq<seq<seq<T>>>>)
    ensures r.Ok? ==> |r.value| == |groups|
    ensures r.Ok? ==> forall g :: 0 <= g < |groups| ==> split(groups[g]) == Ok(r.value[g])
  {
    if groups == [] then Ok([])
    else
      var first :- split(groups[0]);
      var rest :- SplitGroups(groups[1..], split);
      Ok([first] + rest)
  }

  /** `split_keeping_ratio(things, group_ids, splitting_function)`. */
  function SplitKeepingRatio<T, G(==)>(things: seq<T>, ids: seq<G>, split: seq<T> -> Result<seq<seq<T>>>)
    : (r: Result<seq<seq<T>>>)
    ensures |things| != |ids| ==> r.Err? && r.error.AssertionError?
    ensures |things| == |ids| && things == [] ==> r.Err? && r.error.IndexError?
  {
    if |things| != |ids| then Err(AssertionError("len(things_to_split) == len(group_ids)"))
    else
      if things == [] then Err(IndexError("list index out of range"))
      else
        var groups := Groups(things, ids);
        assert ids[0] in GroupOrder(ids);
        var splits :- SplitGroups(groups, split);
        var nSplits := |splits[0]|;
        if exists g :: 0 <= g < |splits| && |splits[g]| > nSplits then Err(IndexError("list index out of range"))
        else Ok(seq(nSplits, i requires 0 <= i < nSplits => MergePart(splits, i)))
  }

  /** The merged parts hold exactly the group parts, regrouped by part number:
      every group's part `i` appears in merged part `i`, in group order. */
  lemma SplitKeepingRatioShape<T, G>(things: seq<T>, ids: seq<G>, split: seq<T> -> Result<seq<seq<T>>>)
    requires |things| == |ids| && things != []
    requires SplitKeepingRatio(things, ids, split).Ok?
    ensures var groups := Groups(things, ids);
      var splits := SplitGroups(groups, split).value;
      var r := SplitKeepingRatio(things, ids, split).value;
      && |groups| > 0
      && |r| == |splits[0]|
      && (forall g :: 0 <= g < |splits| ==> |splits[g]| <= |r|)
      && (forall i :: 0 <= i < |r| ==> r[i] == MergePart(splits, i))
      && multiset(Flatten(r)) == multiset(Flatten(seq(|splits|, g requires 0 <= g < |splits| => Flatten(splits[g]))))
  {
    var groups := Groups(things, ids);
    assert ids[0] in GroupOrder(ids);
    var splits := SplitGroups(groups, split).value;
    var r := SplitKeepingRatio(things, ids, split).value;
    TransposeMultiset(splits, |r|);
    assert r == Columns(splits, |r|);
    assert FlatRows(splits) == seq(|splits|, g requires 0 <= g < |splits| => Flatten(splits[g]));
  }

  /** Column `i` of the rows is column `i` of all rows but the last,
      followed by the last row's part `i`, if it has one. */
  lemma MergePartLast<T>(rows: seq<seq<seq<T>>>, i: nat)
    requires rows != []
    ensures var last := rows[|rows| - 1];
            MergePart(rows, i) == MergePart(rows[..|rows| - 1], i) + (if i < |last| then last[i] else [])
  {
    var init := rows[..|rows| - 1];
    var cells := seq(|rows|, g requires 0 <= g < |rows| => if i < |rows[g]| then rows[g][i] else []);
    var initCells := seq(|init|, g requires 0 <= g < |init| => if i < |init[g]| then init[g][i] else []);
    assert cells[..|cells| - 1] == initCells;
  }

  /** The first `m` merged columns of the rows. */
  function Columns<T>(rows: seq<seq<seq<T>>>, m: nat): (r: seq<seq<T>>)
    ensures |r| == m && forall i :: 0 <= i < m ==> r[i] == MergePart(rows, i)
  {
    seq(m, i requires 0 <= i < m => MergePart(rows, i))
  }

  /** Each row concatenated. */
  function FlatRows<T>(rows: seq<seq<seq<T>>>): (r: seq<seq<T>>)
    ensures |r| == |rows| && forall g :: 0 <= g < |rows| ==> r[g] == Flatten(rows[g])
  {
    seq(|rows|, g requires 0 <= g < |rows| => Flatten(rows[g]))
  }

  /** The parts followed by empty parts, `m` in all. */
  function PadTo<T>(parts: seq<seq<T>>, m: nat): (r: seq<seq<T>>)
    ensures |r| == m && forall i :: 0 <= i < m ==> r[i] == if i < |parts| then parts[i] else []
  {
    seq(m, i requires 0 <= i < m => if i < |parts| then parts[i] else [])
  }

  /** Regrouping rows of parts into columns keeps every element. */
  lemma {:induction false} TransposeMultiset<T>(rows: seq<seq<seq<T>>>, m: nat)
    requires forall g :: 0 <= g < |rows| ==> |rows[g]| <= m
    ensures multiset(Flatten(Columns(rows, m))) == multiset(Flatten(FlatRows(rows)))
    decreases |rows|
  {
    var cols := Columns(rows, m);
    if rows == [] {
      forall i | 0 <= i < m ensures cols[i] == [] {
        assert MergePart(rows, i) == Flatten([]);
      }
      FlattenOfEmpties(cols);
      assert FlatRows(rows) == [];
    } else {
      var init := rows[..|rows| - 1];
      var last := rows[|rows| - 1];
      TransposeMultiset(init, m);
      var initCols := Columns(init, m);
      var lastCols := PadTo(last, m);
      forall i | 0 <= i < m ensures cols[i] == initCols[i] + lastCols[i] {
        MergePartLast(rows, i);
      }
      FlattenZip(initCols, lastCols, cols);
      PadFlatten(last, m);
      FlatRowsLast(rows);
    }
  }

  /** The concatenated rows are those of all rows but the last, then the last. */
  lemma FlatRowsLast<T>(rows: seq<seq<seq<T>>>)
    requires rows != []
    ensures Flatten(FlatRows(rows)) == Flatten(FlatRows(rows[..|rows| - 1])) + Flatten(rows[|rows| - 1])
  {
    var flat := FlatRows(rows);
    assert flat[..|flat| - 1] == FlatRows(rows[..|rows| - 1]);
  }

  lemma {:induction false} FlattenOfEmpties<T>(ss: seq<seq<T>>)
    requires forall i :: 0 <= i < |ss| ==> ss[i] == []
    ensures Flatten(ss) == []
  {
    if ss != [] {
      FlattenOfEmpties(ss[..|ss| - 1]);
    }
  }

  /** Joining pairwise concatenations keeps the elements of both sides. */
  lemma {:induction false} FlattenZip<T>(a: seq<seq<T>>, b: seq<seq<T>>, c: seq<seq<T>>)
    requires |a| == |b| == |c|
    requires forall i :: 0 <= i < |c| ==> c[i] == a[i] + b[i]
    ensures multiset(Flatten(c)) == multiset(Flatten(a)) + multiset(Flatten(b))
  {
    if c != [] {
      var n := |c| - 1;
      FlattenZip(a[..n], b[..n], c[..n]);
      assert Flatten(a) == Flatten(a[..n]) + a[n];
      assert Flatten(b) == Flatten(b[..n]) + b[n];
      assert Flatten(c) == Flatten(c[..n]) + (a[n] + b[n]);
    }
  }

  /** Padding a list of parts with empty parts does not change its concatenation. */
  lemma {:induction false} PadFlatten<T>(parts: seq<seq<T>>, m: nat)
    requires |parts| <= m
    ensures Flatten(PadTo(parts, m)) == Flatten(parts)
  {
    var padded := PadTo(parts, m);
    if m == |parts| {
      assert padded == parts;
    } else {
      PadFlatten(parts, m - 1);
      assert padded[..m - 1] == PadTo(parts, m - 1);
    }
  }

  /** Grouping keeps every item exactly once: the groups together are a
      rearrangement of the input. */
  lemma {:induction false} GroupsPartition<T, G>(things: seq<T>, ids: seq<G>)
    requires |things| == |ids|
    ensures multiset(Flatten(Groups(things, ids))) == multiset(things)
  {
    if things == [] {
      assert Groups(things, ids) == [];
    } else {
      var n := |things| - 1;
      var it := things[..n];
      var ii := ids[..n];
      GroupsPartition(it, ii);
      GroupsSnoc(things, ids);
      MultisetSnoc(things);
    }
  }

  lemma MultisetSnoc<T>(s: seq<T>)
    requires s != []
    ensures multiset(s) == multiset(s[..|s| - 1]) + multiset{s[|s| - 1]}
  {
    assert s == s[..|s| - 1] + [s[|s| - 1]];
  }

  /** Adding one item to the end either extends the group of its id or opens a
      new group at the end. */
  lemma GroupsSnoc<T, G>(things: seq<T>, ids: seq<G>)
    requires |things| == |ids| > 0
    ensures var n := |things| - 1;
      multiset(Flatten(Groups(things, ids)))
        == multiset(Flatten(Groups(things[..n], ids[..n]))) + multiset{things[n]}
  {
    var n := |things| - 1;
    var it := things[..n];
    var ii := ids[..n];
    var x := things[n];
    var g := ids[n];
    var o := GroupOrder(ii);
    var before := Groups(it, ii);
    var now := Groups(things, ids);
    assert GroupOf(things, ids, g) == GroupOf(it, ii, g) + [x];
    if g in o {
      var j :| 0 <= j < |o| && o[j] == g;
      assert GroupOrder(ids) == o;
      forall i | 0 <= i < |o| ensures now[i] == before[j := before[j] + [x]][i] {
        if i != j {
          assert o[i] != g;
          assert GroupOf(things, ids, o[i]) == GroupOf(it, ii, o[i]);
        }
      }
      assert now == before[j := before[j] + [x]];
      FlattenUpdate(before, j, x);
    } else {
      assert forall i :: 0 <= i < |ii| ==> ii[i] in o;
      assert g !in ii;
      GroupOfAbsent(it, ii, g);
      assert GroupOrder(ids) == o + [g];
      forall i | 0 <= i < |o| ensures now[i] == before[i] {
        assert o[i] != g;
        assert GroupOf(things, ids, o[i]) == GroupOf(it, ii, o[i]);
      }
      assert |now| == |o| + 1 && now[|o|] == GroupOf(things, ids, g) == [x];
      assert now == before + [[x]];
      FlattenAppend(before, [[x]]);
      FlattenOne([x]);
    }
  }

  lemma {:induction false} GroupOfAbsent<T, G>(things: seq<T>, ids: seq<G>, g: G)
    requires |things| == |ids| && g !in ids
    ensures GroupOf(things, ids, g) == []
  {
    if things != [] {
      GroupOfAbsent(things[..|things| - 1], ids[..|ids| - 1], g);
    }
  }

  /** Appending one element to one part adds it once to the concatenation. */
  lemma FlattenUpdate<T>(ss: seq<seq<T>>, j: nat, x: T)
    requires j < |ss|
    ensures multiset(Flatten(ss[j := ss[j] + [x]])) == multiset(Flatten(ss)) + multiset{x}
  {
    var ss' := ss[j := ss[j] + [x]];
    assert ss == ss[..j] + [ss[j]] + ss[j + 1..];
    assert ss' == ss[..j] + [ss[j] + [x]] + ss[j + 1..];
    FlattenAppend(ss[..j] + [ss[j]], ss[j + 1..]);
    FlattenAppend(ss[..j], [ss[j]]);
    FlattenOne(ss[j]);
    FlattenAppend(ss[..j] + [ss[j] + [x]], ss[j + 1..]);
    FlattenAppend(ss[..j], [ss[j] + [x]]);
    FlattenOne(ss[j] + [x]);
  }

  /** Pointwise sub-multisets add up to a sub-multiset. */
  lemma {:induction false} FlattenSubMultiset<T>(a: seq<seq<T>>, b: seq<seq<T>>)
    requires |a| == |b| && forall i :: 0 <= i < |a| ==> multiset(a[i]) <= multiset(b[i])
    ensures multiset(Flatten(a)) <= multiset(Flatten(b))
  {
    if a != [] {
      FlattenSubMultiset(a[..|a| - 1], b[..|b| - 1]);
    }
  }

  /** A splitting function that never invents or duplicates items. */
  ghost predicate KeepsWithin<T(!new)>(split: seq<T> -> Result<seq<seq<T>>>) {
    forall xs :: split(xs).Ok? ==> multiset(Flatten(split(xs).value)) <= multiset(xs)
  }

  /** A splitting function whose parts are a rearrangement of its input. */
  ghost predicate Rearranges<T(!new)>(split: seq<T> -> Result<seq<seq<T>>>) {
    forall xs :: split(xs).Ok? ==> multiset(Flatten(split(xs).value)) == multiset(xs)
  }

  /** Grouping, splitting each group with a function that never invents items,
      and merging never invents items either. */
  lemma SplitKeepingRatioWithin<T(!new), G>(things: seq<T>, ids: seq<G>, split: seq<T> -> Result<seq<seq<T>>>)
    requires |things| == |ids| && KeepsWithin(split)
    requires SplitKeepingRatio(things, ids, split).Ok?
    ensures multiset(Flatten(SplitKeepingRatio(things, ids, split).value)) <= multiset(things)
  {
    var groups := Groups(things, ids);
    assert ids[0] in GroupOrder(ids);
    var splits := SplitGroups(groups, split).value;
    var flat := seq(|splits|, g requires 0 <= g < |splits| => Flatten(splits[g]));
    SplitKeepingRatioShape(things, ids, split);
    GroupsPartition(things, ids);
    forall g | 0 <= g < |groups| ensures multiset(flat[g]) <= multiset(groups[g]) {
      assert split(groups[g]) == Ok(splits[g]);
    }
    FlattenSubMultiset(flat, groups);
  }

  /** With a splitting function that partitions its input, the merged parts
      partition the whole input. */
  lemma SplitKeepingRatioPartition<T(!new), G>(things: seq<T>, ids: seq<G>, split: seq<T> -> Result<seq<seq<T>>>)
    requires |things| == |ids| && Rearranges(split)
    requires SplitKeepingRatio(things, ids, split).Ok?
    ensures multiset(Flatten(SplitKeepingRatio(things, ids, split).value)) == multiset(things)
  {
    var groups := Groups(things, ids);
    assert ids[0] in GroupOrder(ids);
    var splits := SplitGroups(groups, split).value;
    var flat := seq(|splits|, g requires 0 <= g < |splits| => Flatten(splits[g]));
    SplitKeepingRatioShape(things, ids, split);
    GroupsPartition(things, ids);
    forall g | 0 <= g < |groups| ensures multiset(flat[g]) == multiset(groups[g]) {
      assert split(groups[g]) == Ok(splits[g]);
    }
    FlattenSubMultiset(flat, groups);
    FlattenSubMultiset(groups, flat);
  }

  /** `random_split` with a valid shuffle, used as a splitting function, never
      invents items. */
  lemma RandomSplitKeepsWithin<T(!new)>(spec: SplitSpec, sh: Shuffler)
    requires ValidShuffler(sh)
    ensures KeepsWithin((xs: seq<T>) => RandomSplit(xs, spec, sh(|xs|)))
  {
    forall xs: seq<T> | RandomSplit(xs, spec, sh(|xs|)).Ok?
      ensures multiset(Flatten(RandomSplit(xs, spec, sh(|xs|)).value)) <= multiset(xs)
    {
      RandomSplitSubMultiset(xs, spec, sh(|xs|));
    }
  }

  // ---------------------------------------------------------------------
  // choose_n

  /** How many entries `xs[:n]` keeps from a list of length `len`. */
  function PrefixLength(n: int, len: nat): (r: nat)
    ensures r <= len
    ensures n >= 0 ==> r == if n < len then n else len
    ensures n < 0 ==> r == if len + n > 0 then len + n else 0
  {
    if n >= 0 then (if n < len then n else len)
    else if len + n > 0 then len + n else 0
  }

  /** `xs[:n]` reads the first `PrefixLength(n, len)` positions: the stop
      bound clamped as `slice.indices` clamps it. */
  lemma PrefixLengthIsSlice(n: int, len: nat)
    ensures Indexing.SliceIndices(Indexing.Slice(None, Some(n), None), len) == Ok(Range(len)[..PrefixLength(n, len)])
  {
    var p := PrefixLength(n, len);
    Indexing.SliceWithinBounds(0, p, len);
    assert Indexing.Clamp(n, len, 0, len) == p;
    assert Indexing.Clamp(p, len, 0, len) == p;
  }

  /** `choose_n(things, n, seed)`: the entries at the first `n` positions of the
      seeded permutation (a negative `n` drops entries from its end). */
  function ChooseN<T>(things: seq<T>, n: int, perm: seq<nat>): (r: seq<T>)
    requires IsPermutation(perm, |things|)
    ensures |r| == PrefixLength(n, |things|)
    ensures IsSelection(r, things, perm[..|r|])
  {
    Select(things, perm[..PrefixLength(n, |things|)])
  }

  /** The chosen entries are distinct positions of the list, so they form a
      sub-multiset of it, and distinct items stay distinct. */
  lemma ChooseNSubMultiset<T>(things: seq<T>, n: int, perm: seq<nat>)
    requires IsPermutation(perm, |things|)
    ensures multiset(ChooseN(things, n, perm)) <= multiset(things)
    ensures Distinct(things) ==> Distinct(ChooseN(things, n, perm))
  {
    var idx := perm[..PrefixLength(n, |things|)];
    assert Distinct(idx) by {
      forall a, b | 0 <= a < b < |idx| ensures idx[a] != idx[b] {
        assert idx[a] == perm[a] && idx[b] == perm[b];
      }
    }
    SelectDistinctSubMultiset(things, idx);
    if Distinct(things) {
      SelectDistinct(things, idx);
    }
  }
}
