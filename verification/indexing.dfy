/** Python and numpy indexing of a sequence of length `n`: negative
    integers count from the end, slices follow `slice.indices`, integer
    lists and arrays pick one position per entry, and a boolean mask of the
    same length picks the positions where it is true.
 */
module Indexing {
  import opened Wrappers
  import opened Seqs

  /** The position `seq[i]` reads, or the IndexError it raises. */
  function ResolveInt(i: int, n: nat): (r: Result<nat>)
    ensures r.Ok? <==> -(n as int) <= i < n
    ensures r.Ok? ==> r.value < n && (r.value - i) % n == 0 && (i >= 0 <==> r.value == i)
    ensures r.Err? ==> r.error.IndexError?
  {
    if 0 <= i < n then Ok(i)
    else if -(n as int) <= i < 0 then
      assert (i + n - i) % n == 0;
      Ok(i + n)
    else Err(IndexError("index out of range"))
  }

  datatype Slice = Slice(start: Option<int>, stop: Option<int>, step: Option<int>)

  /** The clamping `slice.indices` applies to a bound that was given. */
  function Clamp(v: int, n: nat, lower: int, upper: int): (r: int)
    requires lower <= upper
    ensures lower <= r <= upper
  {
    if v < 0 then (if v + n < lower then lower else if v + n > upper then upper else v + n)
    else if v > upper then upper
    else if v < lower then lower
    else v
  }

  /** `range(start, stop, step)` for a non-zero step. */
  function StepRange(start: int, stop: int, step: int): (r: seq<int>)
    requires step != 0
    ensures step > 0 ==> forall k :: 0 <= k < |r| ==> start <= r[k] < stop
    ensures step < 0 ==> forall k :: 0 <= k < |r| ==> stop < r[k] <= start
    ensures step > 0 ==> forall a, b :: 0 <= a < b < |r| ==> r[a] < r[b]
    ensures step < 0 ==> forall a, b :: 0 <= a < b < |r| ==> r[a] > r[b]
    decreases if step > 0 then stop - start else start - stop
  {
    if step > 0 then
      if start >= stop then [] else [start] + StepRange(start + step, stop, step)
    else
      if start <= stop then [] else [start] + StepRange(start + step, stop, step)
  }

  /** The positions `seq[start:stop:step]` reads: `range(*slice.indices(n))`. */
  function SliceIndices(sl: Slice, n: nat): (r: Result<seq<nat>>)
    ensures r.Err? <==> sl.step == Some(0)
    ensures r.Err? ==> r.error.ValueError?
    ensures r.Ok? ==> InBounds(r.value, n) && Distinct(r.value)
  {
    var step := sl.step.GetOr(1);
    if step == 0 then Err(ValueError("slice step cannot be zero"))
    else
      var lower := if step < 0 then -1 else 0;
      var upper := if step < 0 then n - 1 else n;
      var start := if sl.start.Some? then Clamp(sl.start.value, n, lower, upper)
                   else if step < 0 then upper else lower;
      var stop := if sl.stop.Some? then Clamp(sl.stop.value, n, lower, upper)
                  else if step < 0 then lower else upper;
      var ks := StepRange(start, stop, step);
      var r := seq(|ks|, k requires 0 <= k < |ks| => ks[k] as nat);
      assert Distinct(r) by {
        forall a, b | 0 <= a < b < |r| ensures r[a] != r[b] {
          assert r[a] == ks[a] && r[b] == ks[b];
        }
      }
      Ok(r)
  }

  /** `seq[a:b]` with bounds inside the sequence reads exactly `seq[a..b]`. */
  lemma {:induction false} SliceWithinBounds(a: nat, b: nat, n: nat)
    requires a <= b <= n
    ensures SliceIndices(Slice(Some(a), Some(b), None), n) == Ok(Range(n)[a..b])
  {
    var ks := StepRange(a, b, 1);
    StepRangeContiguous(a, b);
    var r := seq(|ks|, k requires 0 <= k < |ks| => ks[k] as nat);
    assert r == Range(n)[a..b];
  }

  /** `seq[a:]` reads exactly `seq[a..]`. */
  lemma {:induction false} SliceFromWithinBounds(a: nat, n: nat)
    requires a <= n
    ensures SliceIndices(Slice(Some(a), None, None), n) == Ok(Range(n)[a..n])
  {
    var ks := StepRange(a, n, 1);
    StepRangeContiguous(a, n);
    var r := seq(|ks|, k requires 0 <= k < |ks| => ks[k] as nat);
    assert r == Range(n)[a..n];
  }

  /** `seq[:]` reads the whole sequence. */
  lemma {:induction false} SliceAll(n: nat)
    ensures SliceIndices(Slice(None, None, None), n) == Ok(Range(n))
  {
    var ks := StepRange(0, n, 1);
    StepRangeContiguous(0, n);
    var r := seq(|ks|, k requires 0 <= k < |ks| => ks[k] as nat);
    assert r == Range(n);
  }

  lemma {:induction false} StepRangeContiguous(a: int, b: int)
    requires a <= b
    ensures |StepRange(a, b, 1)| == b - a
    ensures forall k :: 0 <= k < b - a ==> StepRange(a, b, 1)[k] == a + k
    decreases b - a
  {
    if a < b {
      StepRangeContiguous(a + 1, b);
    }
  }

  /** The positions a boolean mask selects, in increasing order. */
  function MaskPositions(mask: seq<bool>): (r: seq<nat>)
    ensures InBounds(r, |mask|)
    ensures forall a, b :: 0 <= a < b < |r| ==> r[a] < r[b]
    ensures forall i :: 0 <= i < |mask| ==> (mask[i] <==> i in r)
  {
    if mask == [] then []
    else
      var init := MaskPositions(mask[..|mask| - 1]);
      if mask[|mask| - 1] then init + [|mask| - 1] else init
  }

  /** The index kinds a dataset accepts. */
  datatype Index =
    | IntIndex(i: int)
    | SliceIndex(sl: Slice)
    | IntList(items: seq<int>)
    | IntArray(items: seq<int>)
    | BoolMask(mask: seq<bool>)

  /** Resolves every entry of an integer list; the first bad entry raises IndexError. */
  function ResolveAll(items: seq<int>, n: nat): (r: Result<seq<nat>>)
    ensures r.Ok? <==> forall k :: 0 <= k < |items| ==> -(n as int) <= items[k] < n
    ensures r.Ok? ==> |r.value| == |items| && InBounds(r.value, n)
    ensures r.Ok? ==> forall k :: 0 <= k < |items| ==> ResolveInt(items[k], n) == Ok(r.value[k])
    ensures r.Err? ==> r.error.IndexError?
  {
    if items == [] then Ok([])
    else
      var first :- ResolveInt(items[0], n);
      var rest :- ResolveAll(items[1..], n);
      Ok([first] + rest)
  }

  /** The positions a non-integer index selects from a sequence of length `n`
      (`np.arange(n)[index]` for arrays and masks, one entry per item for a list). */
  function Positions(index: Index, n: nat): (r: Result<seq<nat>>)
    requires !index.IntIndex?
    ensures r.Ok? ==> InBounds(r.value, n)
    ensures index.BoolMask? ==> (r.Ok? <==> |index.mask| == n)
    ensures index.BoolMask? && r.Ok? ==> forall i :: 0 <= i < n ==> (index.mask[i] <==> i in r.value)
    ensures (index.IntList? || index.IntArray?) && r.Ok? ==> |r.value| == |index.items|
  {
    match index
    case SliceIndex(sl) => SliceIndices(sl, n)
    case IntList(items) => ResolveAll(items, n)
    case IntArray(items) => ResolveAll(items, n)
    case BoolMask(mask) =>
      if |mask| != n then Err(IndexError("boolean index did not match indexed array"))
      else Ok(MaskPositions(mask))
  }
}
