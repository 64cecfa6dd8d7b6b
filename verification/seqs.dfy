/** Sequence vocabulary shared by the split helpers and the dataset views:
    `range(n)`, permutations of `range(n)`, list comprehensions over an
    index list, concatenation of lists, sums, `np.cumsum` offsets and
    `np.roll`.
 */
module Seqs {
  import Arith

  /** `list(range(n))`. */
  function Range(n: nat): (r: seq<nat>)
    ensures |r| == n
    ensures forall i :: 0 <= i < n ==> r[i] == i
  {
    if n == 0 then [] else Range(n - 1) + [n - 1]
  }

  predicate Distinct<T(==)>(s: seq<T>) {
    forall i, j :: 0 <= i < j < |s| ==> s[i] != s[j]
  }

  /** Every entry of `idx` is a valid position in a list of length `n`. */
  predicate InBounds(idx: seq<nat>, n: nat) {
    forall i :: 0 <= i < |idx| ==> idx[i] < n
  }

  /** What `np.random.RandomState(seed).permutation(n)` returns. */
  predicate IsPermutation(p: seq<nat>, n: nat) {
    |p| == n && InBounds(p, n) && Distinct(p)
  }

  /** The permutation a seeded generator produces for each length. */
  type Shuffler = nat -> seq<nat>

  ghost predicate ValidShuffler(sh: Shuffler) {
    forall n: nat :: IsPermutation(sh(n), n)
  }

  lemma RangeIsPermutation(n: nat)
    ensures IsPermutation(Range(n), n)
  {
  }

  /** The set of values of a sequence. */
  function Elems<T>(s: seq<T>): set<T> {
    set x | x in s
  }

  /** The set of values of a distinct sequence has as many elements as the sequence. */
  lemma {:induction false} DistinctCard<T>(s: seq<T>)
    requires Distinct(s)
    ensures |Elems(s)| == |s|
  {
    if |s| > 0 {
      var last := s[|s| - 1];
      var init := s[..|s| - 1];
      DistinctCard(init);
      assert Elems(s) == Elems(init) + {last} by {
        forall x | x in s ensures x in init || x == last {
          var i :| 0 <= i < |s| && s[i] == x;
          if i < |s| - 1 { assert init[i] == x; }
        }
      }
      assert last !in init by {
        forall i | 0 <= i < |init| ensures init[i] != last {
          assert init[i] == s[i];
        }
      }
    }
  }

  lemma {:induction false} SubsetCard<T>(a: set<T>, b: set<T>)
    requires a <= b
    ensures |a| <= |b|
    decreases |a|
  {
    if a != {} {
      var x :| x in a;
      SubsetCard(a - {x}, b - {x});
    }
  }

  /** A permutation of `range(n)` hits every position: `n` distinct values below `n`. */
  lemma PermutationCovers(p: seq<nat>, n: nat)
    requires IsPermutation(p, n)
    ensures forall j :: 0 <= j < n ==> j in p
  {
    var values := Elems(p);
    var all := Elems(Range(n));
    forall x | x in values ensures x in all {
      assert Range(n)[x] == x;
    }
    DistinctCard(p);
    RangeIsPermutation(n);
    DistinctCard(Range(n));
    if values != all {
      var m :| m in all && m !in values;
      SubsetCard(values, all - {m});
    }
    assert values == all;
    forall j | 0 <= j < n ensures j in p {
      assert Range(n)[j] == j;
      assert j in all;
    }
  }

  /** `r` is `[xs[i] for i in idx]`. */
  ghost predicate IsSelection<T>(r: seq<T>, xs: seq<T>, idx: seq<nat>) {
    |r| == |idx| && forall i :: 0 <= i < |idx| ==> idx[i] < |xs| && r[i] == xs[idx[i]]
  }

  /** `[xs[i] for i in idx]`. */
  function Select<T>(xs: seq<T>, idx: seq<nat>): (r: seq<T>)
    requires InBounds(idx, |xs|)
    ensures IsSelection(r, xs, idx)
  {
    if idx == [] then [] else [xs[idx[0]]] + Select(xs, idx[1..])
  }

  lemma SelectRange<T>(xs: seq<T>)
    ensures Select(xs, Range(|xs|)) == xs
  {
  }

  /** Concatenation of a list of lists. */
  function Flatten<T>(ss: seq<seq<T>>): seq<T> {
    if ss == [] then [] else Flatten(ss[..|ss| - 1]) + ss[|ss| - 1]
  }

  lemma {:induction false} FlattenAppend<T>(a: seq<seq<T>>, b: seq<seq<T>>)
    ensures Flatten(a + b) == Flatten(a) + Flatten(b)
    decreases |b|
  {
    if b == [] {
      assert a + b == a;
    } else {
      var b' := b[..|b| - 1];
      assert (a + b)[..|a + b| - 1] == a + b';
      FlattenAppend(a, b');
    }
  }

  lemma FlattenOne<T>(x: seq<T>)
    ensures Flatten([x]) == x
  {
    assert [x][..0] == [];
  }

  lemma FlattenCons<T>(x: seq<T>, ss: seq<seq<T>>)
    ensures Flatten([x] + ss) == x + Flatten(ss)
  {
    FlattenAppend([x], ss);
    FlattenOne(x);
  }

  /** Every element of a part occurs in the concatenation. */
  lemma {:induction false} FlattenContains<T>(ss: seq<seq<T>>, j: nat, x: T)
    requires j < |ss| && x in ss[j]
    ensures x in Flatten(ss)
  {
    if j < |ss| - 1 {
      FlattenContains(ss[..|ss| - 1], j, x);
    }
  }

  function Sum(xs: seq<nat>): nat {
    if xs == [] then 0 else Sum(xs[..|xs| - 1]) + xs[|xs| - 1]
  }

  lemma {:induction false} SumAppend(a: seq<nat>, b: seq<nat>)
    ensures Sum(a + b) == Sum(a) + Sum(b)
    decreases |b|
  {
    if b != [] {
      assert (a + b)[..|a + b| - 1] == a + b[..|b| - 1];
      SumAppend(a, b[..|b| - 1]);
    } else {
      assert a + b == a;
    }
  }

  lemma SumCons(xs: seq<nat>)
    requires xs != []
    ensures Sum(xs) == xs[0] + Sum(xs[1..])
  {
    SumAppend([xs[0]], xs[1..]);
    assert [xs[0]] + xs[1..] == xs;
    assert [xs[0]][..0] == [];
  }

  /** `np.cumsum` of naturals never decreases. */
  lemma {:induction false} SumPrefixMonotone(xs: seq<nat>, i: nat, j: nat)
    requires i <= j <= |xs|
    ensures Sum(xs[..i]) <= Sum(xs[..j])
    decreases j
  {
    if i < j {
      SumPrefixMonotone(xs, i, j - 1);
      SumPrefixStep(xs, j - 1);
    }
  }

  /** The entries of `np.cumsum(xs)` grow by exactly the next entry. */
  lemma SumPrefixStep(xs: seq<nat>, j: nat)
    requires j < |xs|
    ensures Sum(xs[..j + 1]) == Sum(xs[..j]) + xs[j]
  {
    assert xs[..j + 1][..j] == xs[..j];
  }

  /** `np.roll(a, shift)`: the last `shift % |a|` entries move to the front. */
  function Roll<T>(a: seq<T>, shift: int): (r: seq<T>)
    ensures |r| == |a|
    ensures forall i :: 0 <= i < |r| ==> r[i] in a
  {
    if |a| == 0 then a
    else a[|a| - shift % |a|..] + a[..|a| - shift % |a|]
  }

  /** Entry `i` of a roll is entry `i - shift` of the input, counted cyclically. */
  lemma RollIndex<T>(a: seq<T>, shift: int)
    ensures forall i :: 0 <= i < |a| ==> Roll(a, shift)[i] == a[(i - shift) % |a|]
  {
    var n := |a|;
    if n > 0 {
      var m := shift % n;
      var r := Roll(a, shift);
      forall i | 0 <= i < n ensures r[i] == a[(i - shift) % n] {
        var q := shift / n;
        assert shift == q * n + m;
        if i < m {
          assert r[i] == a[n - m + i];
          Arith.ModUnique(i - shift, n, -(q + 1), n - m + i);
        } else {
          assert r[i] == a[i - m];
          Arith.ModUnique(i - shift, n, -q, i - m);
        }
      }
    }
  }

  /** A roll only reorders its input. */
  lemma RollPermutes<T>(a: seq<T>, shift: int)
    ensures multiset(Roll(a, shift)) == multiset(a)
  {
    if |a| > 0 {
      var cut := |a| - shift % |a|;
      assert a == a[..cut] + a[cut..];
      assert Roll(a, shift) == a[cut..] + a[..cut];
    }
  }

  /** Rolling `range(n)` gives a permutation of `range(n)`. */
  lemma RollRangeIsPermutation(n: nat, shift: int)
    ensures IsPermutation(Roll(Range(n), shift), n)
    ensures multiset(Roll(Range(n), shift)) == multiset(Range(n))
  {
    RollPermutes(Range(n), shift);
    RangeIsPermutation(n);
    SubMultisetDistinct(Roll(Range(n), shift), Range(n));
  }

  /** Dropping entry `j` removes one occurrence of its value. */
  lemma MultisetRemoveAt<T>(s: seq<T>, j: nat)
    requires j < |s|
    ensures multiset(s[..j] + s[j + 1..]) == multiset(s) - multiset{s[j]}
  {
    assert s == s[..j] + [s[j]] + s[j + 1..];
  }

  /** In a distinct sequence no value occurs twice. */
  lemma {:induction false} DistinctSingleCounts<T>(s: seq<T>)
    requires Distinct(s)
    ensures forall x :: multiset(s)[x] <= 1
  {
    if |s| > 0 {
      var init := s[..|s| - 1];
      var last := s[|s| - 1];
      assert s == init + [last];
      assert Distinct(init) by {
        forall i, j | 0 <= i < j < |init| ensures init[i] != init[j] {
          assert init[i] == s[i] && init[j] == s[j];
        }
      }
      DistinctSingleCounts(init);
      assert last !in init by {
        forall i | 0 <= i < |init| ensures init[i] != last {
          assert init[i] == s[i];
        }
      }
    }
  }

  /** A value at two positions occurs twice. */
  lemma RepeatCounts<T>(s: seq<T>, i: nat, j: nat)
    requires i < j < |s|
    ensures s[i] == s[j] ==> multiset(s)[s[i]] >= 2
  {
    assert s == s[..i] + [s[i]] + s[i + 1..j] + [s[j]] + s[j + 1..];
  }

  /** Taking some of the elements of a distinct sequence keeps it distinct. */
  lemma SubMultisetDistinct<T>(xs: seq<T>, ys: seq<T>)
    requires multiset(xs) <= multiset(ys) && Distinct(ys)
    ensures Distinct(xs)
  {
    DistinctSingleCounts(ys);
    forall i, j | 0 <= i < j < |xs| ensures xs[i] != xs[j] {
      RepeatCounts(xs, i, j);
    }
  }

  /** The two halves of a distinct concatenation share nothing. */
  lemma DisjointConcat<T>(u: seq<T>, v: seq<T>)
    requires Distinct(u + v)
    ensures forall x :: x in u ==> x !in v
  {
    forall x | x in u ensures x !in v {
      var a :| 0 <= a < |u| && u[a] == x;
      forall b | 0 <= b < |v| ensures v[b] != x {
        assert (u + v)[a] == u[a] && (u + v)[|u| + b] == v[b];
      }
    }
  }

  /** The parts of a distinct concatenation are distinct and pairwise share nothing. */
  lemma {:induction false} FlattenDistinct<T>(ss: seq<seq<T>>)
    requires Distinct(Flatten(ss))
    ensures forall j :: 0 <= j < |ss| ==> Distinct(ss[j])
    ensures forall j1, j2, x :: 0 <= j1 < j2 < |ss| && x in ss[j1] ==> x !in ss[j2]
  {
    if ss != [] {
      var init := ss[..|ss| - 1];
      var last := ss[|ss| - 1];
      var fi := Flatten(init);
      assert Flatten(ss) == fi + last;
      assert Distinct(fi) by {
        forall i, j | 0 <= i < j < |fi| ensures fi[i] != fi[j] {
          assert fi[i] == Flatten(ss)[i] && fi[j] == Flatten(ss)[j];
        }
      }
      FlattenDistinct(init);
      assert Distinct(last) by {
        forall i, j | 0 <= i < j < |last| ensures last[i] != last[j] {
          assert last[i] == Flatten(ss)[|fi| + i] && last[j] == Flatten(ss)[|fi| + j];
        }
      }
      forall j1, j2, x | 0 <= j1 < j2 < |ss| && x in ss[j1] ensures x !in ss[j2] {
        if j2 < |ss| - 1 {
          assert ss[j1] == init[j1] && ss[j2] == init[j2];
        } else {
          assert ss[j1] == init[j1];
          FlattenContains(init, j1, x);
          DisjointConcat(fi, last);
        }
      }
    }
  }
}
