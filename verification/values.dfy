/** The Python values that flow through manifests, `info` dictionaries and
    processing-step arguments, with the parts of Python's object protocol the
    library relies on: `==`, `isinstance`, `in` and `d[key]`.
 */
module Values {
  import opened Wrappers
  import Strings

  type PosInt = d: int | d > 0 witness 1

  /** A parsed YAML / Python value. A float is the exact fraction `num / den`
      its decimal text `text` denotes; dictionaries keep their keys in
      insertion order. */
  datatype Value =
    | VNone
    | VBool(b: bool)
    | VInt(i: int)
    | VFloat(num: int, den: PosInt, text: string)
    | VStr(s: string)
    | VList(items: seq<Value>)
    | VDict(entries: seq<(string, Value)>)

  /** The built-in classes that validators name. */
  datatype PyType = TStr | TInt | TFloat | TList | TDict

  /** `isinstance(v, t)`; `bool` is a subclass of `int`. */
  predicate IsInstance(v: Value, t: PyType) {
    match t
    case TStr => v.VStr?
    case TInt => v.VInt? || v.VBool?
    case TFloat => v.VFloat?
    case TList => v.VList?
    case TDict => v.VDict?
  }

  /** The integer a `bool` or `int` stands for in arithmetic and comparisons. */
  function AsInt(v: Value): int
    requires v.VInt? || v.VBool?
  {
    if v.VInt? then v.i else if v.b then 1 else 0
  }

  /** The value stored under `key` in a dictionary's entries (the first entry wins). */
  function Lookup(entries: seq<(string, Value)>, key: string): (r: Option<Value>)
    ensures r.Some? <==> exists i :: 0 <= i < |entries| && entries[i].0 == key
    ensures r.Some? ==> exists i :: 0 <= i < |entries| && entries[i] == (key, r.value)
  {
    if entries == [] then None
    else if entries[0].0 == key then
      assert entries[0] == (key, entries[0].1);
      Some(entries[0].1)
    else
      var r := Lookup(entries[1..], key);
      assert forall i :: 1 <= i < |entries| ==> entries[i] == entries[1..][i - 1];
      r
  }

  predicate DistinctKeys(es: seq<(string, Value)>) {
    forall i, j :: 0 <= i < j < |es| ==> es[i].0 != es[j].0
  }

  /** With distinct keys, a lookup finds the one entry holding the key. */
  lemma LookupAt(es: seq<(string, Value)>, i: nat)
    requires DistinctKeys(es) && i < |es|
    ensures Lookup(es, es[i].0) == Some(es[i].1)
  {
    var v := Lookup(es, es[i].0).value;
    var j :| 0 <= j < |es| && es[j] == (es[i].0, v);
    assert i == j;
  }

  function Keys(entries: seq<(string, Value)>): (r: seq<string>)
    ensures |r| == |entries|
    ensures forall i :: 0 <= i < |entries| ==> r[i] == entries[i].0
  {
    if entries == [] then [] else [entries[0].0] + Keys(entries[1..])
  }

  /** Python's `a == b` on values: numbers compare by value across `bool`,
      `int` and `float` (`True == 1 == 1.0`), lists compare item by item, and
      dictionaries compare as key-to-value maps regardless of order. */
  predicate PyEq(a: Value, b: Value)
    decreases a
  {
    match a
    case VNone => b.VNone?
    case VBool(_) =>
      ((b.VBool? || b.VInt?) && AsInt(a) == AsInt(b)) || (b.VFloat? && AsInt(a) * b.den == b.num)
    case VInt(_) =>
      ((b.VBool? || b.VInt?) && AsInt(a) == AsInt(b)) || (b.VFloat? && AsInt(a) * b.den == b.num)
    case VFloat(n, d, _) =>
      ((b.VBool? || b.VInt?) && AsInt(b) * d == n) || (b.VFloat? && n * b.den == b.num * d)
    case VStr(s) => b.VStr? && b.s == s
    case VList(xs) =>
      b.VList? && |xs| == |b.items|
      && forall i :: 0 <= i < |xs| ==> PyEq(xs[i], b.items[i])
    case VDict(es) =>
      b.VDict? && |es| == |b.entries|
      && forall i :: 0 <= i < |es| ==>
           var w := Lookup(b.entries, es[i].0);
           w.Some? && PyEq(es[i].1, w.value)
  }

  /** Numbers compare by value whatever their spelling: `1 == 1.0`,
      `0.1 == 0.10` and `1000.0 == 1e3`. */
  lemma NumbersCompareByValue()
    ensures PyEq(VInt(1), VFloat(1, 1, "1.0")) && PyEq(VFloat(1, 1, "1.0"), VInt(1))
    ensures PyEq(VFloat(1, 10, "0.1"), VFloat(10, 100, "0.10"))
    ensures PyEq(VFloat(1000, 1, "1000.0"), VFloat(1000, 1, "1e3"))
    ensures PyEq(VBool(true), VFloat(1, 1, "1.0")) && !PyEq(VFloat(1, 2, "0.5"), VInt(0))
  {
  }

  predicate IsNumber(v: Value) {
    v.VBool? || v.VInt? || v.VFloat?
  }

  /** What a value is grouped by as a dictionary key: numbers by their exact
      value, since `hash(True) == hash(1) == hash(1.0)`; anything else as it is. */
  datatype HashKey = NumberKey(value: real) | PlainKey(v: Value)

  function KeyOf(v: Value): (k: HashKey)
    ensures k.NumberKey? <==> IsNumber(v)
    ensures !IsNumber(v) ==> k == PlainKey(v)
  {
    match v
    case VBool(_) => NumberKey(AsInt(v) as real)
    case VInt(i) => NumberKey(i as real)
    case VFloat(n, d, _) => NumberKey(n as real / d as real)
    case _ => PlainKey(v)
  }

  /** `x == y` scaled by a positive denominator. */
  lemma ScaledEquality(i: int, n: int, d: int)
    requires d > 0
    ensures i as real == n as real / d as real <==> i * d == n
  {
    assert n as real / d as real * d as real == n as real;
    assert (i * d) as real == i as real * d as real;
  }

  lemma CrossEquality(n: int, d: int, m: int, e: int)
    requires d > 0 && e > 0
    ensures n as real / d as real == m as real / e as real <==> n * e == m * d
  {
    var x := n as real / d as real;
    var y := m as real / e as real;
    assert x * d as real == n as real;
    assert y * e as real == m as real;
    assert (n * e) as real == x * d as real * e as real;
    assert (m * d) as real == y * e as real * d as real;
  }

  /** Two numbers, or two strings, or `None`s, share a key exactly when Python
      finds them equal; numbers and non-numbers never share one. */
  lemma KeyOfMatchesPyEq(a: Value, b: Value)
    requires !a.VList? && !a.VDict? && !b.VList? && !b.VDict?
    ensures KeyOf(a) == KeyOf(b) <==> PyEq(a, b)
  {
    match a
    case VFloat(n, d, _) =>
      match b {
        case VFloat(m, e, _) => CrossEquality(n, d, m, e);
        case VBool(_) => ScaledEquality(AsInt(b), n, d);
        case VInt(_) => ScaledEquality(AsInt(b), n, d);
        case _ =>
      }
    case VBool(_) =>
      if b.VFloat? { ScaledEquality(AsInt(a), b.num, b.den); }
    case VInt(_) =>
      if b.VFloat? { ScaledEquality(AsInt(a), b.num, b.den); }
    case _ =>
  }

  /** The keys of a column of values. */
  function KeysOf(vs: seq<Value>): (r: seq<HashKey>)
    ensures |r| == |vs|
    ensures forall i :: 0 <= i < |vs| ==> r[i] == KeyOf(vs[i])
  {
    seq(|vs|, i requires 0 <= i < |vs| => KeyOf(vs[i]))
  }

  /** Python's `repr(v)`; quotes and backslashes inside strings are not escaped. */
  function Repr(v: Value): string
    decreases v
  {
    match v
    case VNone => "None"
    case VBool(b) => if b then "True" else "False"
    case VInt(i) => Strings.IntToString(i)
    case VFloat(_, _, t) => t
    case VStr(s) => "'" + s + "'"
    case VList(xs) =>
      "[" + Strings.Join(", ", seq(|xs|, i requires 0 <= i < |xs| => Repr(xs[i]))) + "]"
    case VDict(es) =>
      "{" + Strings.Join(", ", seq(|es|, i requires 0 <= i < |es| => "'" + es[i].0 + "': " + Repr(es[i].1))) + "}"
  }

  /** Python's `str(v)`: a string is itself, anything else is its `repr`. */
  function Str(v: Value): string {
    if v.VStr? then v.s else Repr(v)
  }

  /** The `repr` of a list of strings, as error messages print it. */
  function StrListRepr(xs: seq<string>): string {
    Repr(VList(seq(|xs|, i requires 0 <= i < |xs| => VStr(xs[i]))))
  }

  /** `x in xs` for a Python list. */
  predicate ListContains(xs: seq<Value>, x: Value) {
    exists i :: 0 <= i < |xs| && PyEq(x, xs[i])
  }

  predicate IsSubstring(needle: string, hay: string) {
    exists i :: 0 <= i <= |hay| && Strings.StartsWith(hay[i..], needle)
  }

  /** `key in data` for a string `key`: dictionary keys, list items or substrings;
      any other container raises TypeError. */
  function ContainsKey(data: Value, key: string): (r: Result<bool>)
    ensures r.Err? <==> !(data.VDict? || data.VList? || data.VStr?)
    ensures data.VDict? ==> r == Ok(Lookup(data.entries, key).Some?)
  {
    match data
    case VDict(es) => Ok(Lookup(es, key).Some?)
    case VList(xs) => Ok(ListContains(xs, VStr(key)))
    case VStr(s) => Ok(IsSubstring(key, s))
    case _ => Err(TypeError("argument is not iterable"))
  }

  /** `data[key]` for a string `key`: only dictionaries can be read this way. */
  function GetItem(data: Value, key: string): (r: Result<Value>)
    ensures r.Ok? <==> data.VDict? && Lookup(data.entries, key).Some?
    ensures r.Ok? ==> r.value == Lookup(data.entries, key).value
    ensures r.Err? && data.VDict? ==> r.error == KeyError(key)
    ensures !data.VDict? ==> r.Err? && r.error.TypeError?
  {
    if data.VDict? then
      var v := Lookup(data.entries, key);
      if v.Some? then Ok(v.value) else Err(KeyError(key))
    else Err(TypeError("indices must be integers"))
  }
}
