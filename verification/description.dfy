/** The dataset descriptions of `load_atoms.database`: the blueprint a
    description must satisfy, the `DatasetDescription` record that checks
    itself on construction and turns a single `filename` into a one-element
    `filenames`, and the registry of known datasets.

    A record's fields are parsed YAML values; `VNone` stands for a field left
    at its default `None`. `Blueprint`, `IsIn` and `AnyOf` behave as
    `Validator`, `In` and `OneOf` (an "any of").
 */
module Descriptions {
  import opened Wrappers
  import opened Values
  import opened Validation
  import Strings

  const VALID_LICENSES: seq<string> := ["MIT", "CC-BY-4.0", "CC BY-NC-SA 4.0"]

  function StrValues(xs: seq<string>): (r: seq<Value>)
    ensures |r| == |xs|
    ensures forall i :: 0 <= i < |xs| ==> r[i] == VStr(xs[i])
  {
    if xs == [] then [] else [VStr(xs[0])] + StrValues(xs[1..])
  }

  /** `AnyOf(Optional("per atom", dict), Optional("per structure", dict))`. */
  const PROPERTIES_RULE: Rule :=
    OneOf([Optional("per atom", Some(IsInstance(TDict))), Optional("per structure", Some(IsInstance(TDict)))])

  // The rules of the blueprint, in order.
  const NAME_RULE: Rule := Required("name", Some(IsInstance(TStr)))
  const DESCRIPTION_RULE: Rule := Required("description", Some(IsInstance(TStr)))
  const CITATION_RULE: Rule := Optional("citation", Some(IsBibTeX))
  const LICENSE_RULE: Rule := Optional("license", Some(In(StrValues(VALID_LICENSES))))
  const LONG_DESCRIPTION_RULE: Rule := Optional("long_description", Some(IsInstance(TStr)))
  const PROPERTIES_FIELD_RULE: Rule := Optional("properties", Some(PROPERTIES_RULE))

  /** `OneOf(Required("filename", str), Required("filenames", [str]))`. */
  function FilenamesRule(strList: Rule): Rule {
    OneOf([Required("filename", Some(IsInstance(TStr))), Required("filenames", Some(strList))])
  }

  /** `Optional("representative_structures", [int])`. */
  function StructuresRule(intList: Rule): Rule {
    Optional("representative_structures", Some(intList))
  }

  /** The blueprint, parameterised by what the list validators `[str]` and
      `[int]` turn into. */
  function BlueprintWith(strList: Rule, intList: Rule): seq<Rule> {
    [NAME_RULE, DESCRIPTION_RULE, FilenamesRule(strList), CITATION_RULE, LICENSE_RULE,
     StructuresRule(intList), LONG_DESCRIPTION_RULE, PROPERTIES_FIELD_RULE]
  }

  /** The rules are what the library's constructors build from the blueprint's
      arguments: `str` and `dict` become `IsInstance` checks, other validators
      are kept as given. */
  lemma BlueprintArguments(strList: Rule, intList: Rule)
    ensures NAME_RULE == MakeRequired("name", TypeArg(TStr))
    ensures DESCRIPTION_RULE == MakeRequired("description", TypeArg(TStr))
    ensures FilenamesRule(strList) ==
      OneOf([MakeRequired("filename", TypeArg(TStr)), MakeRequired("filenames", RuleArg(strList))])
    ensures CITATION_RULE == MakeOptional("citation", RuleArg(IsBibTeX))
    ensures LICENSE_RULE == MakeOptional("license", RuleArg(MakeIn(StrValues(VALID_LICENSES), [])))
    ensures StructuresRule(intList) == MakeOptional("representative_structures", RuleArg(intList))
    ensures LONG_DESCRIPTION_RULE == MakeOptional("long_description", TypeArg(TStr))
    ensures PROPERTIES_RULE ==
      OneOf([MakeOptional("per atom", TypeArg(TDict)), MakeOptional("per structure", TypeArg(TDict))])
    ensures PROPERTIES_FIELD_RULE == MakeOptional("properties", RuleArg(PROPERTIES_RULE))
  {
    assert StrValues(VALID_LICENSES) + [] == StrValues(VALID_LICENSES);
  }

  /** `DESCRIPTION_BLUEPRINT` as written: `[str]` and `[int]` are not among the
      type shorthands, so they stay lists, and calling a list raises TypeError. */
  const BLUEPRINT_AS_WRITTEN: seq<Rule> := BlueprintWith(NotCallable, NotCallable)

  /** The blueprint with `[str]` and `[int]` read as lists of strings and ints. */
  const BLUEPRINT: seq<Rule> := BlueprintWith(ListOf(IsInstance(TStr)), ListOf(IsInstance(TInt)))

  /** The dataclass fields, in declaration order. */
  datatype Fields = Fields(
    name: Value,
    description: Value,
    filename: Value,
    filenames: Value,
    citation: Value,
    license: Value,
    representativeStructures: Value,
    longDescription: Value,
    properties: Value)

  /** The field called `key`, if there is one. */
  function FieldOf(f: Fields, key: string): Option<Value> {
    if key == "name" then Some(f.name)
    else if key == "description" then Some(f.description)
    else if key == "filename" then Some(f.filename)
    else if key == "filenames" then Some(f.filenames)
    else if key == "citation" then Some(f.citation)
    else if key == "license" then Some(f.license)
    else if key == "representative_structures" then Some(f.representativeStructures)
    else if key == "long_description" then Some(f.longDescription)
    else if key == "properties" then Some(f.properties)
    else None
  }

  predicate IsFieldName(key: string) {
    key in {"name", "description", "filename", "filenames", "citation", "license",
            "representative_structures", "long_description", "properties"}
  }

  /** `asdict(self)`: every field, those left at `None` included. */
  function AsDict(f: Fields): (r: Value)
    ensures r.VDict? && DistinctKeys(r.entries)
    ensures Lookup(r.entries, "name") == Some(f.name)
    ensures Lookup(r.entries, "description") == Some(f.description)
    ensures Lookup(r.entries, "filename") == Some(f.filename)
    ensures Lookup(r.entries, "filenames") == Some(f.filenames)
    ensures Lookup(r.entries, "citation") == Some(f.citation)
    ensures Lookup(r.entries, "license") == Some(f.license)
    ensures Lookup(r.entries, "representative_structures") == Some(f.representativeStructures)
    ensures Lookup(r.entries, "long_description") == Some(f.longDescription)
    ensures Lookup(r.entries, "properties") == Some(f.properties)
  {
    var es := [("name", f.name), ("description", f.description), ("filename", f.filename),
               ("filenames", f.filenames), ("citation", f.citation), ("license", f.license),
               ("representative_structures", f.representativeStructures),
               ("long_description", f.longDescription), ("properties", f.properties)];
    assert DistinctKeys(es);
    LookupAt(es, 0);
    LookupAt(es, 1);
    LookupAt(es, 2);
    LookupAt(es, 3);
    LookupAt(es, 4);
    LookupAt(es, 5);
    LookupAt(es, 6);
    LookupAt(es, 7);
    LookupAt(es, 8);
    VDict(es)
  }

  /** The entries whose value is not `None`. */
  function DropNone(es: seq<(string, Value)>): (r: seq<(string, Value)>)
    ensures forall i :: 0 <= i < |r| ==> r[i] in es && r[i].1 != VNone
  {
    if es == [] then []
    else
      var rest := DropNone(es[1..]);
      if es[0].1 == VNone then rest else [es[0]] + rest
  }

  /** Dropping the `None` entries of a dictionary with distinct keys hides
      exactly the keys whose value was `None`. */
  lemma {:induction false} LookupDropNone(es: seq<(string, Value)>, k: string)
    requires DistinctKeys(es)
    ensures Lookup(DropNone(es), k) == if Lookup(es, k) == Some(VNone) then None else Lookup(es, k)
    decreases |es|
  {
    if es != [] {
      var rest := es[1..];
      assert DistinctKeys(rest) by {
        forall i, j | 0 <= i < j < |rest| ensures rest[i].0 != rest[j].0 {
          assert rest[i] == es[i + 1] && rest[j] == es[j + 1];
        }
      }
      LookupDropNone(rest, k);
      if es[0].0 == k {
        assert Lookup(rest, k).None? by {
          forall i | 0 <= i < |rest| ensures rest[i].0 != k {
            assert rest[i] == es[i + 1];
          }
        }
      } else {
        assert Lookup(es, k) == Lookup(rest, k);
      }
    }
  }

  /** A field's value as an entry of the given fields: absent when `None`. */
  function Given(v: Value): Option<Value> {
    if v == VNone then None else Some(v)
  }

  /** `{k: v for k, v in asdict(self).items() if v is not None}`: the fields that
      were given. */
  function GivenDict(f: Fields): (r: Value)
    ensures r.VDict?
    ensures Lookup(r.entries, "name") == Given(f.name)
    ensures Lookup(r.entries, "description") == Given(f.description)
    ensures Lookup(r.entries, "filename") == Given(f.filename)
    ensures Lookup(r.entries, "filenames") == Given(f.filenames)
    ensures Lookup(r.entries, "citation") == Given(f.citation)
    ensures Lookup(r.entries, "license") == Given(f.license)
    ensures Lookup(r.entries, "representative_structures") == Given(f.representativeStructures)
    ensures Lookup(r.entries, "long_description") == Given(f.longDescription)
    ensures Lookup(r.entries, "properties") == Given(f.properties)
  {
    var es := AsDict(f).entries;
    LookupDropNone(es, "name");
    LookupDropNone(es, "description");
    LookupDropNone(es, "filename");
    LookupDropNone(es, "filenames");
    LookupDropNone(es, "citation");
    LookupDropNone(es, "license");
    LookupDropNone(es, "representative_structures");
    LookupDropNone(es, "long_description");
    LookupDropNone(es, "properties");
    VDict(DropNone(es))
  }

  /** The end of `__post_init__`: a given `filename` becomes `filenames =
      [filename]`, and giving both fails the assertion. */
  function NormaliseFilenames(f: Fields): (r: Result<Fields>)
    ensures f.filename == VNone ==> r == Ok(f)
    ensures f.filename != VNone && f.filenames != VNone ==> r == Err(AssertionError(""))
    ensures f.filename != VNone && f.filenames == VNone ==> r == Ok(f.(filenames := VList([f.filename])))
  {
    if f.filename == VNone then Ok(f)
    else if f.filenames != VNone then Err(AssertionError(""))
    else Ok(f.(filenames := VList([f.filename])))
  }

  /** `DatasetDescription(**fields)` as written: validates `asdict(self)`. */
  function ConstructAsWritten(f: Fields): Result<Fields> {
    var _ :- Validate(BLUEPRINT_AS_WRITTEN, AsDict(f));
    NormaliseFilenames(f)
  }

  /** As written, no description can be constructed: `asdict` always holds the
      key "representative_structures", so its validator, the list `[int]`, is
      always called, and that raises TypeError unless an earlier rule already
      failed. */
  lemma AsWrittenNeverConstructs(f: Fields)
    ensures ConstructAsWritten(f).Err?
    ensures ConstructAsWritten(f).error.ValueError? || ConstructAsWritten(f).error.TypeError?
  {
    var d := AsDict(f);
    AsWrittenRejects(d);
    var v := Validate(BLUEPRINT_AS_WRITTEN, d);
    assert ConstructAsWritten(f) == Err(v.error);
  }

  /** The as-written blueprint rejects every dictionary holding the key
      "representative_structures". */
  lemma AsWrittenRejects(d: Value)
    requires d.VDict? && Lookup(d.entries, "representative_structures").Some?
    ensures Validate(BLUEPRINT_AS_WRITTEN, d).Err?
  {
    assert BLUEPRINT_AS_WRITTEN[5] == StructuresRule(NotCallable);
    NotCallableRaises("representative_structures", d);
    ValidateFailsAt(BLUEPRINT_AS_WRITTEN, d, 5);
  }

  /** A present field whose validator cannot be called raises. */
  lemma NotCallableRaises(field: string, d: Value)
    requires d.VDict? && Lookup(d.entries, field).Some?
    ensures Eval(Optional(field, Some(NotCallable)), d).Err?
  {
    PresentFieldChecked(field, NotCallable, d);
  }

  /** `DatasetDescription(**fields)` as evidently intended: the given fields are
      validated against the blueprint, then `filename` is normalised. */
  function Construct(f: Fields): (r: Result<Fields>)
    ensures r.Ok? ==> r.value.filenames.VList?
    ensures r.Ok? ==> r.value == f.(filenames := r.value.filenames)
    ensures r.Ok? && f.filename != VNone ==> r.value.filenames == VList([f.filename])
    ensures r.Ok? && f.filename == VNone ==> r.value.filenames == f.filenames
  {
    var d := GivenDict(f);
    var _ :- Validate(BLUEPRINT, d);
    ValidatePasses(BLUEPRINT, d);
    BlueprintPasses(d);
    FilenameRule(d);
    NormaliseFilenames(f)
  }

  predicate IsStrList(v: Value) {
    v.VList? && forall i :: 0 <= i < |v.items| ==> v.items[i].VStr?
  }

  predicate IsIntList(v: Value) {
    v.VList? && forall i :: 0 <= i < |v.items| ==> (v.items[i].VInt? || v.items[i].VBool?)
  }

  /** A `properties` value passes its rule. */
  predicate PropertiesPass(p: Value) {
    Eval(PROPERTIES_RULE, p) == Ok(true)
  }

  predicate IsCitation(v: Value) {
    v.VStr? && BibTeXShaped(Strings.Strip(v.s))
  }

  predicate IsLicense(v: Value) {
    v.VStr? && v.s in VALID_LICENSES
  }

  /** A well-formed description: it meets the blueprint, and does not give both
      `filename` and `filenames`. */
  predicate WellFormed(f: Fields) {
    MeetsBlueprint(f) && (f.filename == VNone || f.filenames == VNone)
  }

  /** What the blueprint asks of the given fields, field by field. */
  predicate MeetsBlueprint(f: Fields) {
    && f.name.VStr?
    && f.description.VStr?
    && (f.filename.VStr? || IsStrList(f.filenames))
    && (f.citation == VNone || IsCitation(f.citation))
    && (f.license == VNone || IsLicense(f.license))
    && (f.representativeStructures == VNone || IsIntList(f.representativeStructures))
    && (f.longDescription == VNone || f.longDescription.VStr?)
    && (f.properties == VNone || PropertiesPass(f.properties))
  }

  /** What an optional rule checks on a dictionary: nothing when the field is
      absent, the validator otherwise. */
  lemma OptionalOn(field: string, check: Rule, d: Value)
    requires d.VDict?
    ensures Eval(Optional(field, Some(check)), d) ==
      if Lookup(d.entries, field).None? then Ok(true) else Eval(check, Lookup(d.entries, field).value)
  {
    if Lookup(d.entries, field).None? {
      AbsentField(field, Some(check), d);
    } else {
      PresentFieldChecked(field, check, d);
    }
  }

  lemma RequiredStrOn(field: string, d: Value)
    requires d.VDict?
    ensures Eval(Required(field, Some(IsInstance(TStr))), d) ==
      Ok(Lookup(d.entries, field).Some? && Lookup(d.entries, field).value.VStr?)
  {
    if Lookup(d.entries, field).None? {
      AbsentField(field, Some(IsInstance(TStr)), d);
    } else {
      PresentFieldChecked(field, IsInstance(TStr), d);
    }
  }

  /** The filename rule holds iff a string `filename` or a list of strings
      `filenames` is present. */
  lemma FilenameRule(d: Value)
    requires d.VDict?
    ensures Eval(FilenamesRule(ListOf(IsInstance(TStr))), d) == Ok(
      (Lookup(d.entries, "filename").Some? && Lookup(d.entries, "filename").value.VStr?) ||
      (Lookup(d.entries, "filenames").Some? && IsStrList(Lookup(d.entries, "filenames").value)))
  {
    var r1 := Required("filename", Some(IsInstance(TStr)));
    var r2 := Required("filenames", Some(ListOf(IsInstance(TStr))));
    RequiredStrOn("filename", d);
    if Lookup(d.entries, "filenames").None? {
      AbsentField("filenames", Some(ListOf(IsInstance(TStr))), d);
    } else {
      PresentFieldChecked("filenames", ListOf(IsInstance(TStr)), d);
      ListOfInstance(TStr, Lookup(d.entries, "filenames").value);
    }
    assert AllDefined([r1, r2], d);
    OneOfSemantics([r1, r2], d);
  }

  lemma CitationRule(d: Value)
    requires d.VDict?
    ensures Eval(CITATION_RULE, d) == Ok(Lookup(d.entries, "citation").None? || IsCitation(Lookup(d.entries, "citation").value))
  {
    OptionalOn("citation", IsBibTeX, d);
    if Lookup(d.entries, "citation").Some? {
      var v := Lookup(d.entries, "citation").value;
      IsBibTeXSemantics(v);
      assert Eval(IsBibTeX, v) == Ok(IsCitation(v));
    }
  }

  lemma LicenseRule(d: Value)
    requires d.VDict?
    ensures Eval(LICENSE_RULE, d) == Ok(Lookup(d.entries, "license").None? || IsLicense(Lookup(d.entries, "license").value))
  {
    var vs := StrValues(VALID_LICENSES);
    OptionalOn("license", In(vs), d);
    if Lookup(d.entries, "license").Some? {
      var v := Lookup(d.entries, "license").value;
      if IsLicense(v) {
        var i :| 0 <= i < |VALID_LICENSES| && VALID_LICENSES[i] == v.s;
        assert PyEq(v, vs[i]);
      }
      if ListContains(vs, v) {
        var i :| 0 <= i < |vs| && PyEq(v, vs[i]);
        assert v.VStr? && v.s == VALID_LICENSES[i];
      }
    }
  }

  lemma IntListRule(d: Value)
    requires d.VDict?
    ensures Eval(StructuresRule(ListOf(IsInstance(TInt))), d) == Ok(Lookup(d.entries, "representative_structures").None? ||
      IsIntList(Lookup(d.entries, "representative_structures").value))
  {
    OptionalOn("representative_structures", ListOf(IsInstance(TInt)), d);
    if Lookup(d.entries, "representative_structures").Some? {
      ListOfInstance(TInt, Lookup(d.entries, "representative_structures").value);
    }
  }

  lemma LongDescriptionRule(d: Value)
    requires d.VDict?
    ensures Eval(LONG_DESCRIPTION_RULE, d) == Ok(Lookup(d.entries, "long_description").None? ||
      Lookup(d.entries, "long_description").value.VStr?)
  {
    OptionalOn("long_description", IsInstance(TStr), d);
  }

  lemma PropertiesRule(d: Value)
    requires d.VDict?
    ensures Eval(PROPERTIES_FIELD_RULE, d) ==
      if Lookup(d.entries, "properties").None? then Ok(true) else Eval(PROPERTIES_RULE, Lookup(d.entries, "properties").value)
  {
    OptionalOn("properties", PROPERTIES_RULE, d);
  }

  /** The blueprint accepts the given fields iff every field rule holds. */
  lemma BlueprintAccepts(f: Fields)
    ensures Validate(BLUEPRINT, GivenDict(f)).Ok? <==> MeetsBlueprint(f)
  {
    BlueprintAcceptsOn(f, GivenDict(f));
  }

  /** The same, for any dictionary holding exactly the given fields. */
  lemma BlueprintAcceptsOn(f: Fields, d: Value)
    requires HoldsGiven(f, d)
    ensures Validate(BLUEPRINT, d).Ok? <==> MeetsBlueprint(f)
  {
    ValidatePasses(BLUEPRINT, d);
    BlueprintPasses(d);
    RulesOn(f, d);
  }

  /** A dictionary holding exactly the given fields. */
  predicate HoldsGiven(f: Fields, d: Value) {
    && d.VDict?
    && Lookup(d.entries, "name") == Given(f.name)
    && Lookup(d.entries, "description") == Given(f.description)
    && Lookup(d.entries, "filename") == Given(f.filename)
    && Lookup(d.entries, "filenames") == Given(f.filenames)
    && Lookup(d.entries, "citation") == Given(f.citation)
    && Lookup(d.entries, "license") == Given(f.license)
    && Lookup(d.entries, "representative_structures") == Given(f.representativeStructures)
    && Lookup(d.entries, "long_description") == Given(f.longDescription)
    && Lookup(d.entries, "properties") == Given(f.properties)
  }

  /** The rules on the required fields, field by field. */
  lemma RequiredRulesOn(f: Fields, d: Value)
    requires HoldsGiven(f, d)
    ensures (Eval(NAME_RULE, d) == Ok(true)) == f.name.VStr?
    ensures (Eval(DESCRIPTION_RULE, d) == Ok(true)) == f.description.VStr?
    ensures (Eval(FilenamesRule(ListOf(IsInstance(TStr))), d) == Ok(true))
            == (f.filename.VStr? || IsStrList(f.filenames))
  {
    RequiredStrOn("name", d);
    RequiredStrOn("description", d);
    FilenameRule(d);
  }

  /** The rules on the optional fields, field by field: an absent field passes. */
  lemma OptionalRulesOn(f: Fields, d: Value)
    requires HoldsGiven(f, d)
    ensures (Eval(CITATION_RULE, d) == Ok(true)) == (f.citation == VNone || IsCitation(f.citation))
    ensures (Eval(LICENSE_RULE, d) == Ok(true)) == (f.license == VNone || IsLicense(f.license))
    ensures (Eval(StructuresRule(ListOf(IsInstance(TInt))), d) == Ok(true))
            == (f.representativeStructures == VNone || IsIntList(f.representativeStructures))
    ensures (Eval(LONG_DESCRIPTION_RULE, d) == Ok(true))
            == (f.longDescription == VNone || f.longDescription.VStr?)
    ensures (Eval(PROPERTIES_FIELD_RULE, d) == Ok(true)) == (f.properties == VNone || PropertiesPass(f.properties))
  {
    assert (Eval(CITATION_RULE, d) == Ok(true)) == (f.citation == VNone || IsCitation(f.citation)) by {
      CitationRule(d);
    }
    assert (Eval(LICENSE_RULE, d) == Ok(true)) == (f.license == VNone || IsLicense(f.license)) by {
      LicenseRule(d);
    }
    IntListRule(d);
    LongDescriptionRule(d);
    PropertiesRule(d);
  }

  lemma RulesOn(f: Fields, d: Value)
    requires HoldsGiven(f, d)
    ensures MeetsBlueprint(f) <==>
      && Eval(NAME_RULE, d) == Ok(true)
      && Eval(DESCRIPTION_RULE, d) == Ok(true)
      && Eval(FilenamesRule(ListOf(IsInstance(TStr))), d) == Ok(true)
      && Eval(CITATION_RULE, d) == Ok(true)
      && Eval(LICENSE_RULE, d) == Ok(true)
      && Eval(StructuresRule(ListOf(IsInstance(TInt))), d) == Ok(true)
      && Eval(LONG_DESCRIPTION_RULE, d) == Ok(true)
      && Eval(PROPERTIES_FIELD_RULE, d) == Ok(true)
  {
    RequiredRulesOn(f, d);
    OptionalRulesOn(f, d);
  }

  /** Passing the blueprint is passing its eight rules. */
  lemma BlueprintPasses(d: Value)
    ensures PassUpTo(BLUEPRINT, d, |BLUEPRINT|) <==>
      && Eval(NAME_RULE, d) == Ok(true)
      && Eval(DESCRIPTION_RULE, d) == Ok(true)
      && Eval(FilenamesRule(ListOf(IsInstance(TStr))), d) == Ok(true)
      && Eval(CITATION_RULE, d) == Ok(true)
      && Eval(LICENSE_RULE, d) == Ok(true)
      && Eval(StructuresRule(ListOf(IsInstance(TInt))), d) == Ok(true)
      && Eval(LONG_DESCRIPTION_RULE, d) == Ok(true)
      && Eval(PROPERTIES_FIELD_RULE, d) == Ok(true)
  {
    var b := BLUEPRINT;
    assert b[0] == NAME_RULE && b[1] == DESCRIPTION_RULE && b[2] == FilenamesRule(ListOf(IsInstance(TStr)));
    assert b[3] == CITATION_RULE && b[4] == LICENSE_RULE && b[5] == StructuresRule(ListOf(IsInstance(TInt)));
    assert b[6] == LONG_DESCRIPTION_RULE && b[7] == PROPERTIES_FIELD_RULE && |b| == 8;
    PassEight(b, d);
  }

  /** A description constructs iff it is well-formed; otherwise the failure is
      the assertion on `filename`/`filenames` or a validation error. */
  lemma ConstructSucceedsIff(f: Fields)
    ensures Construct(f).Ok? <==> WellFormed(f)
    ensures Construct(f).Err? ==> Construct(f).error.ValueError? || Construct(f).error.TypeError? || Construct(f).error.AssertionError?
  {
    BlueprintAccepts(f);
    var v := Validate(BLUEPRINT, GivenDict(f));
    if v.Ok? {
      assert MeetsBlueprint(f);
      assert Construct(f) == NormaliseFilenames(f);
    } else {
      assert Construct(f) == Err(v.error);
      assert !MeetsBlueprint(f);
    }
  }

  /** On a dictionary, the properties rule asks that "per atom" or "per
      structure" be absent or a dictionary. */
  lemma PropertiesOnDict(p: Value)
    requires p.VDict?
    ensures PropertiesPass(p) <==>
      (Lookup(p.entries, "per atom").None? || Lookup(p.entries, "per atom").value.VDict?) ||
      (Lookup(p.entries, "per structure").None? || Lookup(p.entries, "per structure").value.VDict?)
  {
    var r1 := Optional("per atom", Some(IsInstance(TDict)));
    var r2 := Optional("per structure", Some(IsInstance(TDict)));
    OptionalOn("per atom", IsInstance(TDict), p);
    OptionalOn("per structure", IsInstance(TDict), p);
    assert AllDefined([r1, r2], p);
    OneOfSemantics([r1, r2], p);
  }

  /** `DatasetDescription(**data)`: the YAML mapping becomes keyword arguments.
      Anything but a mapping, an unknown key, or a missing `name` or
      `description` raises TypeError. */
  function FieldsOf(data: Value): (r: Result<Fields>)
    ensures r.Ok? <==>
      && data.VDict?
      && (forall i :: 0 <= i < |data.entries| ==> IsFieldName(data.entries[i].0))
      && Lookup(data.entries, "name").Some?
      && Lookup(data.entries, "description").Some?
    ensures r.Ok? ==> forall k :: IsFieldName(k) ==> FieldOf(r.value, k) == Some(Lookup(data.entries, k).GetOr(VNone))
    ensures r.Err? ==> r.error.TypeError?
  {
    if !data.VDict? then Err(TypeError("argument after ** must be a mapping"))
    else if exists i :: 0 <= i < |data.entries| && !IsFieldName(data.entries[i].0) then
      Err(TypeError("got an unexpected keyword argument"))
    else if Lookup(data.entries, "name").None? || Lookup(data.entries, "description").None? then
      Err(TypeError("missing required positional argument"))
    else
      var get := (k: string) => Lookup(data.entries, k).GetOr(VNone);
      Ok(Fields(get("name"), get("description"), get("filename"), get("filenames"), get("citation"),
                get("license"), get("representative_structures"), get("long_description"), get("properties")))
  }

  /** `DatasetDescription.from_file` on the parsed YAML `data`: the data itself is
      validated, then the record is constructed from it. */
  function FromFile(data: Value): (r: Result<Fields>)
    ensures r.Ok? ==> FieldsOf(data).Ok? && WellFormed(FieldsOf(data).value) && r == Construct(FieldsOf(data).value)
  {
    var _ :- Validate(BLUEPRINT, data);
    var f :- FieldsOf(data);
    ConstructSucceedsIff(f);
    Construct(f)
  }

  /** A minimal description: a name, a description and one file. */
  lemma MinimalDescription()
    ensures var f := Fields(VStr("C-GAP-17"), VStr("carbon"), VStr("C-GAP-17.extxyz"),
                            VNone, VNone, VNone, VNone, VNone, VNone);
      Construct(f) == Ok(f.(filenames := VList([VStr("C-GAP-17.extxyz")])))
  {
    var f := Fields(VStr("C-GAP-17"), VStr("carbon"), VStr("C-GAP-17.extxyz"),
                    VNone, VNone, VNone, VNone, VNone, VNone);
    assert MeetsBlueprint(f);
    ConstructSucceedsIff(f);
    assert Construct(f).Ok?;
  }

  // ---------------------------------------------------------------------
  // The registry of known datasets

  /** `DATASETS`: each description under its name; a later file with the same
      name replaces an earlier one. */
  function Registry(entries: seq<Fields>): (r: map<Value, Fields>)
    ensures forall n :: n in r <==> exists i :: 0 <= i < |entries| && entries[i].name == n
    ensures forall n :: n in r ==>
      && r[n].name == n
      && exists i :: 0 <= i < |entries| && entries[i] == r[n] && forall j :: i < j < |entries| ==> entries[j].name != n
  {
    var names := set i | 0 <= i < |entries| :: entries[i].name;
    map n | n in names :: entries[LastWithName(entries, n)]
  }

  /** The position of the last entry called `n`. */
  function LastWithName(entries: seq<Fields>, n: Value): (i: nat)
    requires exists i :: 0 <= i < |entries| && entries[i].name == n
    ensures i < |entries| && entries[i].name == n
    ensures forall j :: i < j < |entries| ==> entries[j].name != n
    decreases |entries|
  {
    if entries[|entries| - 1].name == n then |entries| - 1
    else
      var init := entries[..|entries| - 1];
      assert exists i :: 0 <= i < |init| && init[i].name == n;
      LastWithName(init, n)
  }

  /** `is_known_dataset(dataset_id)`. */
  predicate IsKnownDataset(datasets: map<Value, Fields>, id: string) {
    VStr(id) in datasets
  }

  /** `get_description_of(dataset_id)`: the registered description, or an
      AssertionError for an unknown id. */
  function GetDescriptionOf(datasets: map<Value, Fields>, id: string): (r: Result<Fields>)
    ensures r.Ok? <==> IsKnownDataset(datasets, id)
    ensures r.Ok? ==> r.value == datasets[VStr(id)]
    ensures r.Err? ==> r.error == AssertionError("Dataset " + id + " is not known.")
  {
    if VStr(id) in datasets then Ok(datasets[VStr(id)])
    else Err(AssertionError("Dataset " + id + " is not known."))
  }
}
