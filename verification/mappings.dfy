/** The two mapping classes of `load_atoms.utils`.

    `LazyMapping` declares its keys up front and calls a loader the first
    time a key is read, caching the value. The model makes its state
    explicit: the declared keys, the cache, and the log of loader calls (the
    observable side effect of loading).

    `FrozenDict` is a dictionary whose mutators all raise ValueError with
    the message given at construction.
 */
module Mappings {
  import opened Wrappers
  import opened Seqs

  // ---------------------------------------------------------------------
  // LazyMapping

  datatype LazyMapping<V> = LazyMapping(keys: seq<string>, cache: map<string, V>, loads: seq<string>)

  /** `LazyMapping(keys, loader)`: nothing is loaded yet. */
  function NewLazy<V>(keys: seq<string>): (r: LazyMapping<V>)
    ensures r.keys == keys && r.cache == map[] && r.loads == []
  {
    LazyMapping(keys, map[], [])
  }

  /** The state invariant: every cached value is the loader's value for a
      declared key, and the log holds each cached key exactly once. */
  ghost predicate Consistent<V>(m: LazyMapping<V>, loader: string -> V) {
    && (forall k :: k in m.cache ==> k in m.keys && m.cache[k] == loader(k))
    && Distinct(m.loads)
    && (forall i :: 0 <= i < |m.loads| ==> m.loads[i] in m.cache)
    && (forall k :: k in m.cache ==> k in m.loads)
  }

  lemma NewLazyConsistent<V>(keys: seq<string>, loader: string -> V)
    ensures Consistent(NewLazy<V>(keys), loader)
  {
  }

  /** `mapping[key]`: KeyError for an undeclared key; otherwise the cached value,
      loading and caching it on the first read. A loader that can fail is
      given a `Result` value type, and its `Err` is then cached like any
      other value; Python caches nothing when the loader raises, so a failed
      read there is retried on the next access. */
  function Get<V>(m: LazyMapping<V>, key: string, loader: string -> V): (r: (Result<V>, LazyMapping<V>))
    ensures key !in m.keys ==> r == (Err(KeyError(key)), m)
    ensures key in m.keys ==> r.0.Ok? && key in r.1.cache && r.0.value == r.1.cache[key]
    ensures r.1.keys == m.keys
    ensures key in m.cache || key !in m.keys ==> r.1 == m
    ensures key !in m.cache && key in m.keys ==> r.1.loads == m.loads + [key]
    ensures forall k :: k in m.cache ==> k in r.1.cache && r.1.cache[k] == m.cache[k]
  {
    if key !in m.keys then (Err(KeyError(key)), m)
    else if key in m.cache then (Ok(m.cache[key]), m)
    else
      var v := loader(key);
      (Ok(v), m.(cache := m.cache[key := v], loads := m.loads + [key]))
  }

  /** Reading keeps the invariant, and a read of a declared key always yields the
      loader's value for it. */
  lemma GetConsistent<V>(m: LazyMapping<V>, key: string, loader: string -> V)
    requires Consistent(m, loader)
    ensures Consistent(Get(m, key, loader).1, loader)
    ensures key in m.keys ==> Get(m, key, loader).0 == Ok(loader(key))
  {
    var r := Get(m, key, loader).1;
    if key in m.keys && key !in m.cache {
      assert key !in m.loads;
      assert Distinct(r.loads) by {
        forall i, j | 0 <= i < j < |r.loads| ensures r.loads[i] != r.loads[j] {
          if j == |m.loads| {
            assert r.loads[i] == m.loads[i];
          }
        }
      }
    }
  }

  /** Reads a list of keys in order, collecting the results. */
  function GetAll<V>(m: LazyMapping<V>, ks: seq<string>, loader: string -> V): (r: (seq<Result<V>>, LazyMapping<V>))
    ensures |r.0| == |ks|
    ensures r.1.keys == m.keys
    ensures |m.loads| <= |r.1.loads|
    decreases |ks|
  {
    if ks == [] then ([], m)
    else
      var (first, m1) := Get(m, ks[0], loader);
      var (rest, m2) := GetAll(m1, ks[1..], loader);
      ([first] + rest, m2)
  }

  /** Over any sequence of reads the invariant holds, so the loader has run at
      most once per key, and every result is the loader's value or a KeyError
      for an undeclared key. */
  lemma {:induction false} GetAllConsistent<V>(m: LazyMapping<V>, ks: seq<string>, loader: string -> V)
    requires Consistent(m, loader)
    ensures Consistent(GetAll(m, ks, loader).1, loader)
    ensures Distinct(GetAll(m, ks, loader).1.loads)
    ensures forall i :: 0 <= i < |ks| ==>
      GetAll(m, ks, loader).0[i] == if ks[i] in m.keys then Ok(loader(ks[i])) else Err(KeyError(ks[i]))
    decreases |ks|
  {
    if ks != [] {
      var m1 := Get(m, ks[0], loader).1;
      GetConsistent(m, ks[0], loader);
      GetAllConsistent(m1, ks[1..], loader);
      var results := GetAll(m, ks, loader).0;
      forall i | 0 <= i < |ks|
        ensures results[i] == if ks[i] in m.keys then Ok(loader(ks[i])) else Err(KeyError(ks[i]))
      {
        if i > 0 {
          assert results[i] == GetAll(m1, ks[1..], loader).0[i - 1];
          assert ks[i] == ks[1..][i - 1];
        }
      }
    }
  }

  /** Reading only appends to the load log, and only keys that were read and
      are declared. */
  lemma {:induction false} GetAllLog<V>(m: LazyMapping<V>, ks: seq<string>, loader: string -> V)
    ensures var m' := GetAll(m, ks, loader).1;
      && m'.loads[..|m.loads|] == m.loads
      && (forall i :: |m.loads| <= i < |m'.loads| ==> m'.loads[i] in ks && m'.loads[i] in m.keys)
    decreases |ks|
  {
    if ks != [] {
      var m1 := Get(m, ks[0], loader).1;
      var m2 := GetAll(m1, ks[1..], loader).1;
      GetAllLog(m1, ks[1..], loader);
      assert |m.loads| <= |m1.loads| <= |m2.loads|;
      assert m1.loads[..|m.loads|] == m.loads;
      assert m2.loads[..|m.loads|] == m2.loads[..|m1.loads|][..|m.loads|];
      forall i | |m.loads| <= i < |m2.loads| ensures m2.loads[i] in ks && m2.loads[i] in m.keys {
        if i < |m1.loads| {
          assert m2.loads[i] == m1.loads[i] == ks[0];
        } else {
          assert m2.loads[i] in ks[1..];
        }
      }
    }
  }

  /** `key in mapping`: declared keys only, whether loaded or not. */
  predicate Contains<V>(m: LazyMapping<V>, key: string) {
    key in m.keys
  }

  /** `len(mapping)`. */
  function Len<V>(m: LazyMapping<V>): nat {
    |m.keys|
  }

  /** `iter(mapping)`: the declared keys in declared order. */
  function Iter<V>(m: LazyMapping<V>): seq<string> {
    m.keys
  }

  /** Reading never changes what `in`, `len` and iteration report: they depend on
      the declared keys alone. */
  lemma ViewsIgnoreLoading<V>(m: LazyMapping<V>, ks: seq<string>, loader: string -> V)
    ensures var m' := GetAll(m, ks, loader).1;
      && Iter(m') == Iter(m) && Len(m') == Len(m)
      && (forall k :: Contains(m', k) <==> Contains(m, k))
  {
  }

  // ---------------------------------------------------------------------
  // FrozenDict

  const DEFAULT_ERROR_MSG: string := "This dictionary is read-only: any modifications are ignored."

  datatype FrozenDict<V> = FrozenDict(contents: map<string, V>, errorMsg: string)

  /** `freeze_dict(d, error_msg)`. */
  function FreezeDict<V>(d: map<string, V>, errorMsg: Option<string>): (r: FrozenDict<V>)
    ensures r.contents == d
    ensures r.errorMsg == errorMsg.GetOr(DEFAULT_ERROR_MSG)
  {
    FrozenDict(d, errorMsg.GetOr(DEFAULT_ERROR_MSG))
  }

  /** The dictionary mutators `FrozenDict` overrides. */
  datatype Mutation<V> =
    | SetItem(key: string, value: V)
    | DelItem(key: string)
    | Clear
    | Update(other: map<string, V>)
    | SetDefault(key: string, fallback: V)
    | Pop(key: string, default: Option<V>)
    | PopItem
    | InPlaceOr(other: map<string, V>)

  /** What a plain `dict` would hold after the mutation (ignoring the KeyErrors
      `del`, `pop` and `popitem` raise on a missing key or an empty dict). */
  function DictEffect<V>(d: map<string, V>, mu: Mutation<V>): map<string, V> {
    match mu
    case SetItem(k, v) => d[k := v]
    case DelItem(k) => d - {k}
    case Clear => map[]
    case Update(o) => d + o
    case SetDefault(k, v) => if k in d then d else d[k := v]
    case Pop(k, _) => d - {k}
    case PopItem => d
    case InPlaceOr(o) => d + o
  }

  /** The class as written overrides the seven named mutators only. The in-place
      union `fd |= other` is inherited from `dict`, whose implementation merges
      directly without calling the overridden `update`, so it succeeds and
      changes the contents. */
  function ApplyAsWritten<V>(fd: FrozenDict<V>, mu: Mutation<V>): (r: (Result<Option<V>>, FrozenDict<V>))
    ensures !mu.InPlaceOr? ==> r == Apply(fd, mu)
    ensures mu.InPlaceOr? ==> r.0.Ok? && r.1.contents == DictEffect(fd.contents, mu)
  {
    if mu.InPlaceOr? then (Ok(None), fd.(contents := fd.contents + mu.other))
    else Apply(fd, mu)
  }

  /** A frozen dictionary that the as-written class lets `|=` modify. */
  lemma InPlaceOrModifies()
    ensures var fd := FreezeDict(map["a" := 1], None);
      var r := ApplyAsWritten(fd, InPlaceOr(map["b" := 2]));
      && r.0.Ok? && r.1.contents != fd.contents
  {
    var fd := FreezeDict(map["a" := 1], None);
    var r := ApplyAsWritten(fd, InPlaceOr(map["b" := 2]));
    assert "b" in r.1.contents;
  }

  /** Applying a mutator: it raises ValueError with the dictionary's message, and
      the dictionary keeps its contents. */
  function Apply<V>(fd: FrozenDict<V>, mu: Mutation<V>): (r: (Result<Option<V>>, FrozenDict<V>))
    ensures r.0 == Err(ValueError(fd.errorMsg))
    ensures r.1 == fd
  {
    (Err(ValueError(fd.errorMsg)), fd)
  }

  /** Applies mutators in order, collecting what each one raised. */
  function ApplyAll<V>(fd: FrozenDict<V>, mus: seq<Mutation<V>>): (r: (seq<Result<Option<V>>>, FrozenDict<V>))
    ensures |r.0| == |mus|
    decreases |mus|
  {
    if mus == [] then ([], fd)
    else
      var (first, fd1) := Apply(fd, mus[0]);
      var (rest, fd2) := ApplyAll(fd1, mus[1..]);
      ([first] + rest, fd2)
  }

  /** After any sequence of attempted modifications the contents equal the
      dictionary it was frozen from, and every attempt raised the same ValueError
      even where a plain `dict` would have changed. */
  lemma {:induction false} FrozenDictUnchanged<V>(d: map<string, V>, msg: Option<string>, mus: seq<Mutation<V>>)
    ensures var (errs, fd) := ApplyAll(FreezeDict(d, msg), mus);
      && fd.contents == d
      && (forall i :: 0 <= i < |mus| ==> errs[i] == Err(ValueError(msg.GetOr(DEFAULT_ERROR_MSG))))
      && (forall i :: 0 <= i < |mus| && DictEffect(d, mus[i]) != d ==> fd.contents != DictEffect(d, mus[i]))
    decreases |mus|
  {
    if mus != [] {
      FrozenDictUnchanged(d, msg, mus[1..]);
    }
  }

  /** A read of a frozen dictionary sees the original value. */
  function FrozenGet<V>(fd: FrozenDict<V>, key: string): (r: Result<V>)
    ensures r.Ok? <==> key in fd.contents
    ensures r.Ok? ==> r.value == fd.contents[key]
    ensures r.Err? ==> r.error == KeyError(key)
  {
    if key in fd.contents then Ok(fd.contents[key]) else Err(KeyError(key))
  }
}
