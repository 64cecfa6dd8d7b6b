/** The rule combinators of `load_atoms.validation`, applied to parsed YAML
    values.

    Every rule is a callable returning a truth value. Calling a rule may also
    raise: `field in data` raises TypeError when `data` is not a container,
    `data[field]` raises TypeError when `data` is not a dictionary, and
    calling something that is not callable (such as the list `[str]`) raises
    TypeError. `Validator.is_valid` only catches the ValueError that
    `validate` raises for a failing rule, so these TypeErrors propagate.
 */
module Validation {
  import opened Wrappers
  import opened Values
  import Strings

  datatype Rule =
    | Validator(rules: seq<Rule>)
    | IsInstance(cls: PyType)
    | ListOf(item: Rule)
    | Required(field: string, check: Option<Rule>)
    | Optional(field: string, check: Option<Rule>)
    | OneOf(options: seq<Rule>)
    | In(values: seq<Value>)
    | IsBibTeX
    | HasFields(fields: seq<string>)
    | Custom(test: Value -> bool)
    | NotCallable

  /** The second argument of `Required` and `Optional`. */
  datatype Arg = NoArg | TypeArg(t: PyType) | RuleArg(rule: Rule)

  /** The type shorthands `str`, `int`, `float`, `list` and `dict` become
      `IsInstance` checks; any other argument is kept as given. */
  function Normalise(arg: Arg): (r: Option<Rule>)
    ensures arg.NoArg? <==> r.None?
    ensures arg.TypeArg? ==> r == Some(IsInstance(arg.t))
    ensures arg.RuleArg? ==> r == Some(arg.rule)
  {
    match arg
    case NoArg => None
    case TypeArg(t) => Some(IsInstance(t))
    case RuleArg(rule) => Some(rule)
  }

  /** `Required(field, validator)`. */
  function MakeRequired(field: string, arg: Arg): (r: Rule)
    ensures r.Required? && r.field == field && r.check == Normalise(arg)
  {
    Required(field, Normalise(arg))
  }

  /** `Optional(field, validator)`. */
  function MakeOptional(field: string, arg: Arg): (r: Rule)
    ensures r.Optional? && r.field == field && r.check == Normalise(arg)
  {
    Optional(field, Normalise(arg))
  }

  /** `In(values, *more_values)`: one list of all the values. */
  function MakeIn(values: seq<Value>, more: seq<Value>): (r: Rule)
    ensures r.In? && |r.values| == |values| + |more|
    ensures forall i :: 0 <= i < |values| ==> r.values[i] == values[i]
    ensures forall i :: 0 <= i < |more| ==> r.values[|values| + i] == more[i]
  {
    In(values + more)
  }

  /** A citation passes when, stripped of surrounding whitespace, it starts with
      '@' and ends with '}'. */
  predicate LooksLikeBibTeX(s: string) {
    var t := Strings.Strip(s);
    Strings.StartsWith(t, "@") && Strings.EndsWith(t, "}")
  }

  /** What `IsBibTeX()` returns: false for anything but a string. */
  predicate BibTeXVerdict(data: Value) {
    data.VStr? && LooksLikeBibTeX(data.s)
  }

  /** `rule(data)`. */
  function Eval(rule: Rule, data: Value): (r: Result<bool>)
    ensures r.Err? ==> r.error.TypeError?
    decreases rule, 1
  {
    match rule
    case Validator(rules) => EvalAll(rules, data, rule)
    case IsInstance(t) => Ok(Values.IsInstance(data, t))
    case ListOf(item) =>
      if !data.VList? then Ok(false) else EvalEach(item, data.items)
    case Required(field, check) =>
      var present :- ContainsKey(data, field);
      if !present then Ok(false) else EvalField(check, data, field, rule)
    case Optional(field, check) =>
      var present :- ContainsKey(data, field);
      if !present then Ok(true) else EvalField(check, data, field, rule)
    case OneOf(options) => EvalAny(options, data, rule)
    case In(values) => Ok(ListContains(values, data))
    case IsBibTeX => Ok(BibTeXVerdict(data))
    case HasFields(fields) => HasAll(fields, data)
    case Custom(test) => Ok(test(data))
    case NotCallable => Err(TypeError("object is not callable"))
  }

  /** The check on a present field: true without a validator, else the validator's verdict. */
  function EvalField(check: Option<Rule>, data: Value, field: string, parent: Rule): (r: Result<bool>)
    requires ContainsKey(data, field) == Ok(true)
    requires check.Some? ==> check.value < parent
    ensures r.Err? ==> r.error.TypeError?
    decreases parent, 0
  {
    if check.None? then Ok(true)
    else
      var v :- GetItem(data, field);
      Eval(check.value, v)
  }

  /** `Validator.is_valid(data)`: every rule in order, stopping at the first false. */
  function EvalAll(rules: seq<Rule>, data: Value, parent: Rule): (r: Result<bool>)
    requires forall i :: 0 <= i < |rules| ==> rules[i] < parent
    ensures r.Err? ==> r.error.TypeError?
    decreases parent, 0, |rules|
  {
    if rules == [] then Ok(true)
    else
      var passes :- Eval(rules[0], data);
      if !passes then Ok(false) else EvalAll(rules[1..], data, parent)
  }

  /** `OneOf.__call__`: the rules in order, stopping at the first true. */
  function EvalAny(rules: seq<Rule>, data: Value, parent: Rule): (r: Result<bool>)
    requires forall i :: 0 <= i < |rules| ==> rules[i] < parent
    ensures r.Err? ==> r.error.TypeError?
    decreases parent, 0, |rules|
  {
    if rules == [] then Ok(false)
    else
      var passes :- Eval(rules[0], data);
      if passes then Ok(true) else EvalAny(rules[1..], data, parent)
  }

  /** `ListOf.__call__` on a list: every item in order, stopping at the first false. */
  function EvalEach(item: Rule, items: seq<Value>): (r: Result<bool>)
    ensures r.Err? ==> r.error.TypeError?
    decreases item, 2, |items|
  {
    if items == [] then Ok(true)
    else
      var passes :- Eval(item, items[0]);
      if !passes then Ok(false) else EvalEach(item, items[1..])
  }

  /** `HasFields.__call__`. */
  function HasAll(fields: seq<string>, data: Value): (r: Result<bool>)
    ensures data.VDict? ==> r == Ok(forall i :: 0 <= i < |fields| ==> Lookup(data.entries, fields[i]).Some?)
    ensures !(data.VDict? || data.VList? || data.VStr?) && fields != [] ==> r.Err?
    ensures r.Err? ==> r.error.TypeError?
  {
    if fields == [] then Ok(true)
    else
      var present :- ContainsKey(data, fields[0]);
      if !present then Ok(false)
      else
        var rest := HasAll(fields[1..], data);
        assert forall i :: 1 <= i < |fields| ==> fields[i] == fields[1..][i - 1];
        rest
  }

  /** `Validator.validate(data)`: ValueError naming the first failing rule; a rule
      that raises passes its exception on. */
  function Validate(rules: seq<Rule>, data: Value): (r: Result<()>)
    ensures r.Err? && r.error.ValueError? ==>
      exists i :: 0 <= i < |rules| && Eval(rules[i], data) == Ok(false)
    ensures r.Err? ==> r.error.ValueError? || r.error.TypeError?
    decreases |rules|
  {
    if rules == [] then Ok(())
    else
      var passes :- Eval(rules[0], data);
      if !passes then Err(ValueError("Validation failed"))
      else
        var rest := Validate(rules[1..], data);
        assert forall i :: 1 <= i < |rules| ==> rules[i] == rules[1..][i - 1];
        rest
  }

  /** No rule raises on `data`. */
  predicate AllDefined(rules: seq<Rule>, data: Value) {
    forall i :: 0 <= i < |rules| ==> Eval(rules[i], data).Ok?
  }

  /** `is_valid` is `validate` with its ValueError turned into False: it accepts
      exactly when `validate` succeeds, and when no rule raises it is true iff
      every rule passes. An empty Validator accepts everything. */
  lemma {:induction false} ValidatorSemantics(rules: seq<Rule>, data: Value)
    ensures Eval(Validator(rules), data) == Ok(true) <==> Validate(rules, data) == Ok(())
    ensures Eval(Validator(rules), data) == Ok(false) <==> Validate(rules, data).Err? && Validate(rules, data).error.ValueError?
    ensures AllDefined(rules, data) ==>
      (Eval(Validator(rules), data) == Ok(true) <==> forall i :: 0 <= i < |rules| ==> Eval(rules[i], data) == Ok(true))
    ensures rules == [] ==> Eval(Validator(rules), data) == Ok(true)
  {
    ValidatorAll(rules, data, Validator(rules));
  }

  lemma {:induction false} ValidatorAll(rules: seq<Rule>, data: Value, parent: Rule)
    requires forall i :: 0 <= i < |rules| ==> rules[i] < parent
    ensures EvalAll(rules, data, parent) == Ok(true) <==> Validate(rules, data) == Ok(())
    ensures EvalAll(rules, data, parent) == Ok(false) <==> Validate(rules, data).Err? && Validate(rules, data).error.ValueError?
    ensures EvalAll(rules, data, parent).Err? ==> Validate(rules, data).Err? && !Validate(rules, data).error.ValueError?
    ensures AllDefined(rules, data) ==>
      (EvalAll(rules, data, parent) == Ok(true) <==> forall i :: 0 <= i < |rules| ==> Eval(rules[i], data) == Ok(true))
    decreases |rules|
  {
    if rules != [] {
      ValidatorAll(rules[1..], data, parent);
      assert forall i :: 1 <= i < |rules| ==> rules[i] == rules[1..][i - 1];
    }
  }

  /** The first `n` rules all return true. */
  predicate PassUpTo(rules: seq<Rule>, data: Value, n: nat)
    requires n <= |rules|
  {
    forall j :: 0 <= j < n ==> Eval(rules[j], data) == Ok(true)
  }

  /** Eight rules pass when each of them does. */
  lemma PassEight(rules: seq<Rule>, data: Value)
    requires |rules| == 8
    ensures PassUpTo(rules, data, 8) <==>
      && Eval(rules[0], data) == Ok(true) && Eval(rules[1], data) == Ok(true)
      && Eval(rules[2], data) == Ok(true) && Eval(rules[3], data) == Ok(true)
      && Eval(rules[4], data) == Ok(true) && Eval(rules[5], data) == Ok(true)
      && Eval(rules[6], data) == Ok(true) && Eval(rules[7], data) == Ok(true)
  {
  }

  /** `validate` succeeds iff every rule returns true. */
  lemma {:induction false} ValidatePasses(rules: seq<Rule>, data: Value)
    ensures Validate(rules, data).Ok? <==> PassUpTo(rules, data, |rules|)
    decreases |rules|
  {
    if rules != [] {
      ValidatePasses(rules[1..], data);
      assert forall i :: 1 <= i < |rules| ==> rules[i] == rules[1..][i - 1];
    }
  }

  /** A rule that does not return true makes `validate` fail. */
  lemma ValidateFailsAt(rules: seq<Rule>, data: Value, i: nat)
    requires i < |rules| && Eval(rules[i], data) != Ok(true)
    ensures Validate(rules, data).Err?
  {
    ValidatePasses(rules, data);
  }

  /** Rule `i` returns false after every earlier rule returned true. */
  predicate RejectsAt(rules: seq<Rule>, data: Value, i: int) {
    0 <= i < |rules| && Eval(rules[i], data) == Ok(false) && PassUpTo(rules, data, i)
  }

  /** Behind a first rule that passes, rejecting at `i` in the rest is
      rejecting at `i + 1`. */
  lemma RejectsAtShift(rules: seq<Rule>, data: Value, i: int)
    requires rules != [] && Eval(rules[0], data) == Ok(true)
    ensures RejectsAt(rules[1..], data, i) <==> RejectsAt(rules, data, i + 1)
  {
    var tail := rules[1..];
    if 0 <= i < |tail| {
      assert rules[i + 1] == tail[i];
      forall j | 0 <= j < i ensures Eval(tail[j], data) == Eval(rules[j + 1], data) {
        assert tail[j] == rules[j + 1];
      }
      assert PassUpTo(tail, data, i) <==> PassUpTo(rules, data, i + 1) by {
        if PassUpTo(tail, data, i) {
          forall j | 0 <= j < i + 1 ensures Eval(rules[j], data) == Ok(true) {
            if j > 0 {
              assert Eval(tail[j - 1], data) == Ok(true);
            }
          }
        }
      }
    }
  }

  /** `validate` raises ValueError iff some rule returns false after every
      earlier rule returned true. */
  lemma {:induction false} ValidateRejects(rules: seq<Rule>, data: Value)
    ensures Validate(rules, data).Err? && Validate(rules, data).error.ValueError? <==>
      exists i :: RejectsAt(rules, data, i)
    decreases |rules|
  {
    if rules != [] {
      var tail := rules[1..];
      ValidateRejects(tail, data);
      if Eval(rules[0], data) == Ok(true) {
        assert Validate(rules, data) == Validate(tail, data);
        if exists i :: RejectsAt(tail, data, i) {
          var i :| RejectsAt(tail, data, i);
          RejectsAtShift(rules, data, i);
        }
        if exists i :: RejectsAt(rules, data, i) {
          var i :| RejectsAt(rules, data, i);
          assert i > 0;
          RejectsAtShift(rules, data, i - 1);
        }
      } else if Eval(rules[0], data) == Ok(false) {
        assert RejectsAt(rules, data, 0);
      }
    }
  }

  /** `Required(field, check)`: false when the field is absent; when present, true
      without a validator and otherwise the validator's verdict on the field's
      value. Data that is not a container raises TypeError. */
  lemma RequiredSemantics(field: string, check: Option<Rule>, data: Value)
    ensures ContainsKey(data, field) == Ok(false) ==> Eval(Required(field, check), data) == Ok(false)
    ensures ContainsKey(data, field) == Ok(true) && check.None? ==> Eval(Required(field, check), data) == Ok(true)
    ensures data.VDict? && Lookup(data.entries, field).Some? && check.Some? ==>
      Eval(Required(field, check), data) == Eval(check.value, Lookup(data.entries, field).value)
    ensures !(data.VDict? || data.VList? || data.VStr?) ==> Eval(Required(field, check), data).Err?
  {
  }

  /** `Optional(field, check)` is true when the field is absent and otherwise
      behaves exactly like `Required(field, check)`. */
  lemma OptionalSemantics(field: string, check: Option<Rule>, data: Value)
    ensures ContainsKey(data, field) == Ok(false) ==> Eval(Optional(field, check), data) == Ok(true)
    ensures ContainsKey(data, field) != Ok(false) ==>
      Eval(Optional(field, check), data) == Eval(Required(field, check), data)
  {
  }

  /** On a dictionary holding `field`, `Required` and `Optional` with a validator
      both return the validator's verdict on the field's value. */
  lemma PresentFieldChecked(field: string, check: Rule, data: Value)
    requires data.VDict? && Lookup(data.entries, field).Some?
    ensures Eval(Required(field, Some(check)), data) == Eval(check, Lookup(data.entries, field).value)
    ensures Eval(Optional(field, Some(check)), data) == Eval(check, Lookup(data.entries, field).value)
  {
  }

  /** On a dictionary without `field`, `Required` is false and `Optional` true. */
  lemma AbsentField(field: string, check: Option<Rule>, data: Value)
    requires data.VDict? && Lookup(data.entries, field).None?
    ensures Eval(Required(field, check), data) == Ok(false)
    ensures Eval(Optional(field, check), data) == Ok(true)
  {
  }

  /** The type shorthands: `Required(field, int)` checks `isinstance(value, int)`
      on a present field, and likewise for `Optional`. */
  lemma ShorthandSemantics(field: string, t: PyType, data: Value)
    requires data.VDict? && Lookup(data.entries, field).Some?
    ensures Eval(MakeRequired(field, TypeArg(t)), data) == Ok(Values.IsInstance(Lookup(data.entries, field).value, t))
    ensures Eval(MakeOptional(field, TypeArg(t)), data) == Ok(Values.IsInstance(Lookup(data.entries, field).value, t))
  {
    RequiredSemantics(field, Some(IsInstance(t)), data);
    OptionalSemantics(field, Some(IsInstance(t)), data);
  }

  /** `OneOf` is an "any of": when no option raises, it is true iff at least one
      option passes (so several may pass), and an empty `OneOf` is false. */
  lemma OneOfSemantics(options: seq<Rule>, data: Value)
    ensures options == [] ==> Eval(OneOf(options), data) == Ok(false)
    ensures AllDefined(options, data) ==>
      (Eval(OneOf(options), data) == Ok(true) <==> exists i :: 0 <= i < |options| && Eval(options[i], data) == Ok(true))
  {
    AnyExists(options, data, OneOf(options));
  }

  lemma {:induction false} AnyExists(rules: seq<Rule>, data: Value, parent: Rule)
    requires forall i :: 0 <= i < |rules| ==> rules[i] < parent
    ensures AllDefined(rules, data) ==>
      (EvalAny(rules, data, parent) == Ok(true) <==> exists i :: 0 <= i < |rules| && Eval(rules[i], data) == Ok(true))
    decreases |rules|
  {
    if rules != [] {
      var tail := rules[1..];
      assert forall i :: 0 <= i < |tail| ==> tail[i] < parent by {
        assert forall i :: 1 <= i < |rules| ==> rules[i] == tail[i - 1];
      }
      AnyExists(tail, data, parent);
      if AllDefined(rules, data) {
        assert AllDefined(tail, data) by {
          assert forall i :: 1 <= i < |rules| ==> rules[i] == tail[i - 1];
        }
        if Eval(rules[0], data) == Ok(false) {
          assert EvalAny(rules, data, parent) == EvalAny(tail, data, parent);
          SomePassesInTail(rules, data);
        }
      }
    }
  }

  /** When the first rule fails, some rule passes iff some later one does. */
  lemma SomePassesInTail(rules: seq<Rule>, data: Value)
    requires rules != [] && Eval(rules[0], data) == Ok(false)
    ensures (exists i :: 0 <= i < |rules| && Eval(rules[i], data) == Ok(true))
            <==> (exists i :: 0 <= i < |rules[1..]| && Eval(rules[1..][i], data) == Ok(true))
  {
    var tail := rules[1..];
    if exists i :: 0 <= i < |rules| && Eval(rules[i], data) == Ok(true) {
      var i :| 0 <= i < |rules| && Eval(rules[i], data) == Ok(true);
      assert i > 0 && tail[i - 1] == rules[i];
    }
    if exists i :: 0 <= i < |tail| && Eval(tail[i], data) == Ok(true) {
      var i :| 0 <= i < |tail| && Eval(tail[i], data) == Ok(true);
      assert rules[i + 1] == tail[i];
    }
  }

  /** `ListOf(item)`: false for anything but a list; on a list whose items never
      make `item` raise, true iff every item passes, so the empty list passes. */
  lemma ListOfSemantics(item: Rule, data: Value)
    ensures !data.VList? ==> Eval(ListOf(item), data) == Ok(false)
    ensures data == VList([]) ==> Eval(ListOf(item), data) == Ok(true)
    ensures data.VList? && (forall i :: 0 <= i < |data.items| ==> Eval(item, data.items[i]).Ok?) ==>
      (Eval(ListOf(item), data) == Ok(true) <==> forall i :: 0 <= i < |data.items| ==> Eval(item, data.items[i]) == Ok(true))
  {
    if data.VList? {
      EachAll(item, data.items);
    }
  }

  lemma {:induction false} EachAll(item: Rule, items: seq<Value>)
    ensures (forall i :: 0 <= i < |items| ==> Eval(item, items[i]).Ok?) ==>
      (EvalEach(item, items) == Ok(true) <==> forall i :: 0 <= i < |items| ==> Eval(item, items[i]) == Ok(true))
    decreases |items|
  {
    if items != [] {
      EachAll(item, items[1..]);
      assert forall i :: 1 <= i < |items| ==> items[i] == items[1..][i - 1];
    }
  }

  /** `ListOf(IsInstance(t))` never raises: it is true iff the data is a list
      whose every item is an instance of `t`. */
  lemma ListOfInstance(t: PyType, data: Value)
    ensures Eval(ListOf(IsInstance(t)), data) ==
      Ok(data.VList? && forall i :: 0 <= i < |data.items| ==> Values.IsInstance(data.items[i], t))
  {
    if data.VList? {
      EachInstance(t, data.items);
    }
  }

  lemma {:induction false} EachInstance(t: PyType, items: seq<Value>)
    ensures EvalEach(IsInstance(t), items) == Ok(forall i :: 0 <= i < |items| ==> Values.IsInstance(items[i], t))
    decreases |items|
  {
    if items != [] {
      EachInstance(t, items[1..]);
      assert forall i :: 1 <= i < |items| ==> items[i] == items[1..][i - 1];
    }
  }

  /** `In(values, *more)` accepts exactly the data equal (in Python's sense) to one
      of the given values. */
  lemma InSemantics(values: seq<Value>, more: seq<Value>, data: Value)
    ensures Eval(MakeIn(values, more), data) == Ok(ListContains(values, data) || ListContains(more, data))
  {
    var all := values + more;
    if ListContains(all, data) {
      var i :| 0 <= i < |all| && PyEq(data, all[i]);
      if i >= |values| {
        assert PyEq(data, more[i - |values|]);
      }
    }
    if ListContains(more, data) {
      var i :| 0 <= i < |more| && PyEq(data, more[i]);
      assert all[|values| + i] == more[i];
    }
  }

  /** `HasFields(*fields)` on a dictionary is true iff every field is a key. */
  lemma HasFieldsSemantics(fields: seq<string>, data: Value)
    requires data.VDict?
    ensures Eval(HasFields(fields), data) == Ok(forall i :: 0 <= i < |fields| ==> Lookup(data.entries, fields[i]).Some?)
  {
  }

  /** `IsBibTeX()`: non-strings fail; a string passes iff, stripped, it is
      non-empty, starts with '@' and ends with '}', so surrounding whitespace
      never changes the verdict. */
  lemma IsBibTeXSemantics(data: Value)
    ensures !data.VStr? ==> Eval(IsBibTeX, data) == Ok(false)
    ensures data.VStr? ==> (Eval(IsBibTeX, data) == Ok(true) <==> BibTeXShaped(Strings.Strip(data.s)))
    ensures data.VStr? ==> Eval(IsBibTeX, data) == Eval(IsBibTeX, VStr(Strings.Strip(data.s)))
    ensures Eval(IsBibTeX, data) == Ok(data.VStr? && BibTeXShaped(Strings.Strip(data.s)))
  {
    if data.VStr? {
      var t := Strings.Strip(data.s);
      EvalBibTeX(data.s);
      EvalBibTeX(t);
      Strings.StripIdempotent(data.s);
      assert LooksLikeBibTeX(t) == LooksLikeBibTeX(data.s);
      BibTeXEnds(t);
    }
  }

  lemma EvalBibTeX(s: string)
    ensures Eval(IsBibTeX, VStr(s)) == Ok(LooksLikeBibTeX(s))
  {
    assert Eval(IsBibTeX, VStr(s)) == Ok(BibTeXVerdict(VStr(s)));
  }

  /** Starts with '@' and ends with '}', character by character. */
  predicate BibTeXShaped(t: string) {
    |t| >= 1 && t[0] == '@' && t[|t| - 1] == '}'
  }

  lemma BibTeXEnds(t: string)
    ensures Strings.StartsWith(t, "@") && Strings.EndsWith(t, "}") <==> BibTeXShaped(t)
  {
    if BibTeXShaped(t) {
      assert t[..1] == "@";
      assert t[|t| - 1..] == "}";
    }
  }
}
