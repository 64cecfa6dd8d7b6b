/** An atomic structure (an `ase.Atoms` object) as the datasets see it: its
    atomic numbers (one per atom), its per-structure `info` dictionary and
    its per-atom `arrays`; and what every dataset variant computes from a
    list of structures: sizes, atom counts, the shared key sets, the loaded
    `info`/`arrays` columns and the `filter_by` selection.
 */
module Structures {
  import opened Wrappers
  import opened Values
  import opened Seqs
  import Utils
  import Indexing

  datatype Structure = Structure(numbers: seq<int>, info: map<string, Value>, arrays: map<string, seq<Value>>)

  /** `structure_sizes`: `len(structure)` of every structure, in order. */
  function Sizes(ss: seq<Structure>): (r: seq<nat>)
    ensures |r| == |ss|
    ensures forall i :: 0 <= i < |ss| ==> r[i] == |ss[i].numbers|
  {
    seq(|ss|, i requires 0 <= i < |ss| => |ss[i].numbers|)
  }

  /** `n_atoms`: the sum of the structure sizes. */
  function NAtoms(ss: seq<Structure>): nat {
    Sum(Sizes(ss))
  }

  /** Atom counts add up over a concatenation of structure lists. */
  lemma NAtomsAppend(a: seq<Structure>, b: seq<Structure>)
    ensures NAtoms(a + b) == NAtoms(a) + NAtoms(b)
  {
    assert Sizes(a + b) == Sizes(a) + Sizes(b);
    SumAppend(Sizes(a), Sizes(b));
  }

  /** Reordering structures does not change the atom count. */
  lemma {:induction false} NAtomsPermutation(a: seq<Structure>, b: seq<Structure>)
    requires multiset(a) == multiset(b)
    ensures NAtoms(a) == NAtoms(b)
    decreases |a|
  {
    if a == [] {
      assert |b| == |multiset(b)| == 0;
    } else {
      var x := a[|a| - 1];
      assert x in multiset(b);
      var j :| 0 <= j < |b| && b[j] == x;
      var a' := a[..|a| - 1];
      var b' := b[..j] + b[j + 1..];
      assert a == a' + [x];
      assert b == b[..j] + [x] + b[j + 1..];
      assert multiset(a') == multiset(a) - multiset{x};
      assert multiset(b') == multiset(b) - multiset{x};
      NAtomsPermutation(a', b');
      NAtomsAppend(a', [x]);
      NAtomsAppend(b[..j] + [x], b[j + 1..]);
      NAtomsAppend(b[..j], [x]);
      NAtomsAppend(b[..j], b[j + 1..]);
    }
  }

  // ---------------------------------------------------------------------
  // Key sets and loaded columns.

  function InfoKeySets(ss: seq<Structure>): (r: seq<set<string>>)
    ensures |r| == |ss| && forall i :: 0 <= i < |ss| ==> r[i] == ss[i].info.Keys
  {
    seq(|ss|, i requires 0 <= i < |ss| => ss[i].info.Keys)
  }

  function ArrayKeySets(ss: seq<Structure>): (r: seq<set<string>>)
    ensures |r| == |ss| && forall i :: 0 <= i < |ss| ==> r[i] == ss[i].arrays.Keys
  {
    seq(|ss|, i requires 0 <= i < |ss| => ss[i].arrays.Keys)
  }

  /** The `info` keys of an in-memory dataset: those every structure has
      (none at all for an empty list). */
  function SharedInfoKeys(ss: seq<Structure>): (r: set<string>)
    ensures ss == [] ==> r == {}
    ensures ss != [] ==> forall k :: k in r <==> forall i :: 0 <= i < |ss| ==> k in ss[i].info
  {
    Utils.Intersect(InfoKeySets(ss))
  }

  /** The `arrays` keys of an in-memory dataset: those every structure has. */
  function SharedArrayKeys(ss: seq<Structure>): (r: set<string>)
    ensures ss == [] ==> r == {}
    ensures ss != [] ==> forall k :: k in r <==> forall i :: 0 <= i < |ss| ==> k in ss[i].arrays
  {
    Utils.Intersect(ArrayKeySets(ss))
  }

  predicate AllHaveInfo(ss: seq<Structure>, key: string) {
    forall i :: 0 <= i < |ss| ==> key in ss[i].info
  }

  predicate AllHaveArray(ss: seq<Structure>, key: string) {
    forall i :: 0 <= i < |ss| ==> key in ss[i].arrays
  }

  /** The `info` loader, `np.array([s.info[key] for s in structures])`: one
      entry per structure, and a KeyError if some structure lacks the key. */
  function InfoColumn(ss: seq<Structure>, key: string): (r: Result<seq<Value>>)
    ensures r.Ok? <==> AllHaveInfo(ss, key)
    ensures r.Err? ==> r.error == KeyError(key)
    ensures r.Ok? ==> |r.value| == |ss| && forall i :: 0 <= i < |ss| ==> r.value[i] == ss[i].info[key]
  {
    if AllHaveInfo(ss, key) then Ok(seq(|ss|, i requires 0 <= i < |ss| => ss[i].info[key]))
    else Err(KeyError(key))
  }

  /** Every key an in-memory dataset declares loads without error. */
  lemma SharedKeysLoad(ss: seq<Structure>, key: string)
    requires key in SharedInfoKeys(ss)
    ensures InfoColumn(ss, key).Ok? && |InfoColumn(ss, key).value| == |ss|
  {
  }

  /** The column of a selection is the selection of the column, which is what
      `self.info[key][idxs]` relies on. */
  lemma InfoColumnOfSelect(ss: seq<Structure>, key: string, idx: seq<nat>)
    requires InBounds(idx, |ss|) && InfoColumn(ss, key).Ok?
    ensures InfoColumn(Select(ss, idx), key) == Ok(Select(InfoColumn(ss, key).value, idx))
  {
    var sel := Select(ss, idx);
    var col := InfoColumn(ss, key).value;
    assert AllHaveInfo(sel, key) by {
      forall i | 0 <= i < |sel| ensures key in sel[i].info {
        assert sel[i] == ss[idx[i]];
      }
    }
    assert InfoColumn(sel, key).value == Select(col, idx);
  }

  /** The per-atom rows of every structure for `key`, in structure order. */
  function ArrayParts(ss: seq<Structure>, key: string): (r: seq<seq<Value>>)
    requires AllHaveArray(ss, key)
    ensures |r| == |ss| && forall i :: 0 <= i < |ss| ==> r[i] == ss[i].arrays[key]
  {
    seq(|ss|, i requires 0 <= i < |ss| => ss[i].arrays[key])
  }

  /** The `arrays` loader, `np.concatenate([s.arrays[key] for s in structures])`. */
  function ArraysColumn(ss: seq<Structure>, key: string): (r: Result<seq<Value>>)
    ensures r.Ok? <==> AllHaveArray(ss, key)
    ensures r.Err? ==> r.error == KeyError(key)
  {
    if AllHaveArray(ss, key) then Ok(Flatten(ArrayParts(ss, key))) else Err(KeyError(key))
  }

  /** A concatenation is as long as its parts together, and part `i` sits right
      after the parts before it. */
  lemma {:induction false} FlattenBlock<T>(parts: seq<seq<T>>, i: nat)
    requires i < |parts|
    ensures |Flatten(parts[..i])| + |parts[i]| <= |Flatten(parts)|
    ensures Flatten(parts)[|Flatten(parts[..i])|..|Flatten(parts[..i])| + |parts[i]|] == parts[i]
  {
    assert parts == parts[..i + 1] + parts[i + 1..];
    FlattenAppend(parts[..i + 1], parts[i + 1..]);
    assert parts[..i + 1][..i] == parts[..i];
    assert Flatten(parts[..i + 1]) == Flatten(parts[..i]) + parts[i];
  }

  /** The loaded `arrays[key]` holds every structure's rows, each block at the
      offset given by the rows before it, and nothing else. */
  lemma ArraysColumnBlocks(ss: seq<Structure>, key: string, i: nat)
    requires AllHaveArray(ss, key) && i < |ss|
    ensures var col := ArraysColumn(ss, key).value;
            var start := |Flatten(ArrayParts(ss, key)[..i])|;
            && start + |ss[i].arrays[key]| <= |col|
            && col[start..start + |ss[i].arrays[key]|] == ss[i].arrays[key]
  {
    FlattenBlock(ArrayParts(ss, key), i);
  }

  /** The loaded column has as many rows as all the structures' arrays together. */
  lemma {:induction false} ArraysColumnLength(ss: seq<Structure>, key: string)
    requires AllHaveArray(ss, key)
    ensures |ArraysColumn(ss, key).value| == Sum(seq(|ss|, i requires 0 <= i < |ss| => |ss[i].arrays[key]|))
    decreases |ss|
  {
    var lens := seq(|ss|, i requires 0 <= i < |ss| => |ss[i].arrays[key]|);
    if ss != [] {
      var init := ss[..|ss| - 1];
      ArraysColumnLength(init, key);
      assert ArrayParts(ss, key)[..|ss| - 1] == ArrayParts(init, key);
      assert lens[..|ss| - 1] == seq(|init|, i requires 0 <= i < |init| => |init[i].arrays[key]|);
    }
  }

  /** An `ase.Atoms` object holds one row of every per-atom array for each
      of its atoms. */
  predicate WellFormed(s: Structure) {
    forall k :: k in s.arrays ==> |s.arrays[k]| == |s.numbers|
  }

  /** For structures that keep one row per atom, the loaded `arrays[key]`
      has one row per atom of the dataset: `len(arrays[key]) == n_atoms`. */
  lemma ArraysColumnPerAtom(ss: seq<Structure>, key: string)
    requires AllHaveArray(ss, key)
    requires forall i :: 0 <= i < |ss| ==> WellFormed(ss[i])
    ensures |ArraysColumn(ss, key).value| == NAtoms(ss)
  {
    ArraysColumnLength(ss, key);
    assert seq(|ss|, i requires 0 <= i < |ss| => |ss[i].arrays[key]|) == Sizes(ss);
  }

  // ---------------------------------------------------------------------
  // filter_by

  /** `structure.info.get(key, None)`. */
  function InfoGet(s: Structure, key: string): Value {
    if key in s.info then s.info[key] else VNone
  }

  /** `matches_info`: for every keyword, the structure's value compares equal
      to the requested one, a missing key counting as None. */
  predicate MatchesInfo(s: Structure, kwargs: seq<(string, Value)>) {
    forall j :: 0 <= j < |kwargs| ==> PyEq(InfoGet(s, kwargs[j].0), kwargs[j].1)
  }

  /** `the_filter`: every given function accepts the structure, and so does `matches_info`. */
  predicate Passes(s: Structure, preds: seq<Structure -> bool>, kwargs: seq<(string, Value)>) {
    (forall j :: 0 <= j < |preds| ==> preds[j](s)) && MatchesInfo(s, kwargs)
  }

  function PassMask(ss: seq<Structure>, preds: seq<Structure -> bool>, kwargs: seq<(string, Value)>): (r: seq<bool>)
    ensures |r| == |ss| && forall i :: 0 <= i < |ss| ==> (r[i] <==> Passes(ss[i], preds, kwargs))
  {
    seq(|ss|, i requires 0 <= i < |ss| => Passes(ss[i], preds, kwargs))
  }

  /** `[i for i, s in enumerate(structures) if the_filter(s)]`. */
  function Passing(ss: seq<Structure>, preds: seq<Structure -> bool>, kwargs: seq<(string, Value)>): (r: seq<nat>)
    ensures InBounds(r, |ss|)
    ensures forall a, b :: 0 <= a < b < |r| ==> r[a] < r[b]
    ensures forall i :: 0 <= i < |ss| ==> (i in r <==> Passes(ss[i], preds, kwargs))
  {
    Indexing.MaskPositions(PassMask(ss, preds, kwargs))
  }

  /** Reference definition: `[s for s in structures if the_filter(s)]`. */
  function Kept(ss: seq<Structure>, preds: seq<Structure -> bool>, kwargs: seq<(string, Value)>): (r: seq<Structure>)
    ensures |r| <= |ss|
    ensures forall s :: s in r <==> s in ss && Passes(s, preds, kwargs)
  {
    if ss == [] then []
    else
      var init := Kept(ss[..|ss| - 1], preds, kwargs);
      var last := ss[|ss| - 1];
      assert forall s :: s in ss <==> s in ss[..|ss| - 1] || s == last;
      init + (if Passes(last, preds, kwargs) then [last] else [])
  }

  /** Selecting the passing positions keeps exactly the passing structures, in
      their original order. */
  lemma {:induction false} PassingSelectsKept(ss: seq<Structure>, preds: seq<Structure -> bool>, kwargs: seq<(string, Value)>)
    ensures Select(ss, Passing(ss, preds, kwargs)) == Kept(ss, preds, kwargs)
    decreases |ss|
  {
    if ss != [] {
      var n := |ss|;
      var init := ss[..n - 1];
      PassingSelectsKept(init, preds, kwargs);
      var mask := PassMask(ss, preds, kwargs);
      assert mask[..n - 1] == PassMask(init, preds, kwargs);
      var p := Passing(init, preds, kwargs);
      assert p == Indexing.MaskPositions(mask[..n - 1]);
      SelectPrefix(ss, init, p);
      var last := ss[n - 1];
      assert Kept(ss, preds, kwargs) == Kept(init, preds, kwargs) + (if Passes(last, preds, kwargs) then [last] else []);
      var kept := Kept(init, preds, kwargs);
      assert Select(ss, p) == kept;
      if mask[n - 1] {
        assert Passing(ss, preds, kwargs) == p + [n - 1];
        Utils.SelectAppend(ss, p, [n - 1]);
        assert Select(ss, [n - 1]) == [last];
        assert Kept(ss, preds, kwargs) == kept + [last];
      } else {
        assert Passing(ss, preds, kwargs) == p;
        assert Kept(ss, preds, kwargs) == kept;
      }
    }
  }

  /** Positions inside a prefix select the same items from the prefix. */
  lemma SelectPrefix<T>(xs: seq<T>, prefix: seq<T>, idx: seq<nat>)
    requires |prefix| <= |xs| && prefix == xs[..|prefix|] && InBounds(idx, |prefix|)
    ensures Select(xs, idx) == Select(prefix, idx)
  {
  }
}
