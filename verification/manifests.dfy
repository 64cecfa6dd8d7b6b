/** How pydantic builds a manifest model (`DatabaseEntry`, `DatasetInfo`) from a
    parsed YAML mapping, one field at a time.

    - A missing required field is rejected with a `ValidationError` naming it.
    - A value of the wrong type is rejected the same way.
    - A field validator's `ValueError` becomes a `ValidationError` for its field.
    - A field absent from the mapping takes its default, and validators do not
      run on defaults.
    - An explicit `None` is a value like any other: it satisfies `Optional[...]`
      and is handed to the field's validator.
    - Keys the model does not declare are ignored.
 */
module Manifests {
  import opened Wrappers
  import opened Values
  import Strings
  import Checksums
  import Validation

  const FIELD_REQUIRED: string := "Field required"
  const NOT_A_STRING: string := "Input should be a valid string"
  const NOT_AN_INT: string := "Input should be a valid integer"
  const NOT_A_DICT: string := "Input should be a valid dictionary"
  const NOT_A_LIST: string := "Input should be a valid list"

  /** The value given for `key`, with an explicit `None` counting as not given. */
  function Present(es: seq<(string, Value)>, key: string): (r: Option<Value>)
    ensures r.Some? <==> Lookup(es, key).Some? && !Lookup(es, key).value.VNone?
    ensures r.Some? ==> r.value == Lookup(es, key).value
  {
    match Lookup(es, key)
    case None => None
    case Some(v) => if v.VNone? then None else Some(v)
  }

  /** A required `str` field. */
  function ReadStr(es: seq<(string, Value)>, key: string): (r: Result<string>)
    ensures r.Ok? <==> Lookup(es, key).Some? && Lookup(es, key).value.VStr?
    ensures r.Ok? ==> r.value == Lookup(es, key).value.s
    ensures r.Err? ==> r.error.ValidationError? && r.error.field == key
  {
    match Lookup(es, key)
    case None => Err(ValidationError(key, FIELD_REQUIRED))
    case Some(v) => if v.VStr? then Ok(v.s) else Err(ValidationError(key, NOT_A_STRING))
  }

  /** A required `int` field; a `bool` is an `int`. */
  function ReadInt(es: seq<(string, Value)>, key: string): (r: Result<int>)
    ensures r.Ok? <==> Lookup(es, key).Some? && IsInstance(Lookup(es, key).value, TInt)
    ensures r.Ok? ==> r.value == AsInt(Lookup(es, key).value)
    ensures r.Err? ==> r.error.ValidationError? && r.error.field == key
  {
    match Lookup(es, key)
    case None => Err(ValidationError(key, FIELD_REQUIRED))
    case Some(v) => if IsInstance(v, TInt) then Ok(AsInt(v)) else Err(ValidationError(key, NOT_AN_INT))
  }

  /** An `Optional[str] = None` field without a validator. */
  function ReadOptStr(es: seq<(string, Value)>, key: string): (r: Result<Option<string>>)
    ensures r.Ok? <==> Present(es, key).None? || Present(es, key).value.VStr?
    ensures r.Ok? ==> r.value == if Present(es, key).Some? then Some(Present(es, key).value.s) else None
    ensures r.Err? ==> r.error == ValidationError(key, NOT_A_STRING)
  {
    match Present(es, key)
    case None => Ok(None)
    case Some(v) => if v.VStr? then Ok(Some(v.s)) else Err(ValidationError(key, NOT_A_STRING))
  }

  /** An `Optional[int] = None` field. */
  function ReadOptInt(es: seq<(string, Value)>, key: string): (r: Result<Option<int>>)
    ensures r.Ok? <==> Present(es, key).None? || IsInstance(Present(es, key).value, TInt)
    ensures r.Ok? ==> r.value == if Present(es, key).Some? then Some(AsInt(Present(es, key).value)) else None
    ensures r.Err? ==> r.error == ValidationError(key, NOT_AN_INT)
  {
    match Present(es, key)
    case None => Ok(None)
    case Some(v) => if IsInstance(v, TInt) then Ok(Some(AsInt(v))) else Err(ValidationError(key, NOT_AN_INT))
  }

  /** An `Optional[dict] = None` field: any mapping is kept as it is. */
  function ReadOptDict(es: seq<(string, Value)>, key: string): (r: Result<Option<seq<(string, Value)>>>)
    ensures r.Ok? <==> Present(es, key).None? || Present(es, key).value.VDict?
    ensures r.Ok? ==> r.value == if Present(es, key).Some? then Some(Present(es, key).value.entries) else None
    ensures r.Err? ==> r.error == ValidationError(key, NOT_A_DICT)
  {
    match Present(es, key)
    case None => Ok(None)
    case Some(v) => if v.VDict? then Ok(Some(v.entries)) else Err(ValidationError(key, NOT_A_DICT))
  }

  /** The items of a `List[int]`, or `None` when one of them is not an `int`. */
  function IntItems(xs: seq<Value>): (r: Option<seq<int>>)
    ensures r.Some? <==> forall i :: 0 <= i < |xs| ==> IsInstance(xs[i], TInt)
    ensures r.Some? ==> |r.value| == |xs| && forall i :: 0 <= i < |xs| ==> r.value[i] == AsInt(xs[i])
  {
    if xs == [] then Some([])
    else if !IsInstance(xs[0], TInt) then None
    else
      var rest := IntItems(xs[1..]);
      assert forall i :: 1 <= i < |xs| ==> xs[i] == xs[1..][i - 1];
      if rest.None? then None else Some([AsInt(xs[0])] + rest.value)
  }

  /** An `Optional[List[int]] = None` field. */
  function ReadOptIntList(es: seq<(string, Value)>, key: string): (r: Result<Option<seq<int>>>)
    ensures r.Ok? <==> Present(es, key).None?
                       || (Present(es, key).value.VList? && IntItems(Present(es, key).value.items).Some?)
    ensures r.Ok? && Present(es, key).Some? ==> r.value == IntItems(Present(es, key).value.items)
    ensures r.Ok? && Present(es, key).None? ==> r.value == None
    ensures r.Err? ==> r.error.ValidationError? && r.error.field == key
  {
    match Present(es, key)
    case None => Ok(None)
    case Some(v) =>
      if !v.VList? then Err(ValidationError(key, NOT_A_LIST))
      else
        var items := IntItems(v.items);
        if items.None? then Err(ValidationError(key, NOT_AN_INT)) else Ok(items)
  }

  // ---------------------------------------------------------------------
  // The citation validator shared by every manifest model.

  /** `validate_citation(v)` on a string: the stripped text must start with
      '@' and end with '}', and the stripped text is what the model keeps. */
  function CheckCitation(s: string): (r: Result<string>)
    ensures r.Ok? <==> Validation.BibTeXShaped(Strings.Strip(s))
    ensures r.Ok? ==> r.value == Strings.Strip(s)
    ensures r.Err? ==> r.error == ValidationError("citation", "Invalid BibTeX: " + Strings.Strip(s))
  {
    var t := Strings.Strip(s);
    Validation.BibTeXEnds(t);
    if Strings.StartsWith(t, "@") && Strings.EndsWith(t, "}") then Ok(t)
    else Err(ValidationError("citation", "Invalid BibTeX: " + t))
  }

  /** A stored citation passes the validator again and is kept as it is, so
      reloading a saved manifest does not change its citation. */
  lemma CitationStable(s: string)
    requires CheckCitation(s).Ok?
    ensures CheckCitation(CheckCitation(s).value) == CheckCitation(s)
    ensures Strings.Strip(CheckCitation(s).value) == CheckCitation(s).value
  {
    Strings.StripIdempotent(s);
  }

  /** A citation the field reader accepts is BibTeX-shaped and already
      stripped. */
  lemma ReadCitationValid(es: seq<(string, Value)>)
    requires ReadCitation(es).Ok? && ReadCitation(es).value.Some?
    ensures Validation.BibTeXShaped(ReadCitation(es).value.value)
    ensures Strings.Strip(ReadCitation(es).value.value) == ReadCitation(es).value.value
  {
    Strings.StripIdempotent(Lookup(es, "citation").value.s);
  }

  /** The manifest models accept exactly the citations that the older
      `IsBibTeX()` rule accepts. */
  lemma CitationAgreesWithIsBibTeX(s: string)
    ensures CheckCitation(s).Ok? <==> Validation.Eval(Validation.IsBibTeX, VStr(s)) == Ok(true)
  {
    Validation.IsBibTeXSemantics(VStr(s));
  }

  /** The `citation: Optional[str] = None` field with its validator. An explicit
      `None` reaches the validator, whose `v.strip()` then raises an
      AttributeError that pydantic does not convert. */
  function ReadCitation(es: seq<(string, Value)>): (r: Result<Option<string>>)
    ensures r.Ok? <==> Lookup(es, "citation").None?
                       || (Lookup(es, "citation").value.VStr?
                           && Validation.BibTeXShaped(Strings.Strip(Lookup(es, "citation").value.s)))
    ensures r.Ok? && Lookup(es, "citation").Some? ==> r.value == Some(Strings.Strip(Lookup(es, "citation").value.s))
    ensures r.Ok? && Lookup(es, "citation").None? ==> r.value == None
    ensures Lookup(es, "citation") == Some(VNone) ==> r.Err? && r.error.AttributeError?
    ensures r.Err? && Lookup(es, "citation") != Some(VNone) ==> r.error.ValidationError? && r.error.field == "citation"
  {
    match Lookup(es, "citation")
    case None => Ok(None)
    case Some(v) =>
      if v.VNone? then Err(AttributeError("'NoneType' object has no attribute 'strip'"))
      else if !v.VStr? then Err(ValidationError("citation", NOT_A_STRING))
      else
        var c :- CheckCitation(v.s);
        Ok(Some(c))
  }

  /** The `license: Optional[str] = None` field with a validator that accepts
      only the names in `valid`. An explicit `None` is not in `valid`, so it is
      rejected too. */
  function ReadLicense(es: seq<(string, Value)>, valid: seq<string>): (r: Result<Option<string>>)
    ensures r.Ok? <==> Lookup(es, "license").None?
                       || (Lookup(es, "license").value.VStr? && Lookup(es, "license").value.s in valid)
    ensures r.Ok? && Lookup(es, "license").Some? ==> r.value == Some(Lookup(es, "license").value.s)
    ensures r.Ok? && Lookup(es, "license").None? ==> r.value == None
    ensures r.Err? ==> r.error.ValidationError? && r.error.field == "license"
  {
    match Lookup(es, "license")
    case None => Ok(None)
    case Some(v) =>
      if !(v.VStr? || v.VNone?) then Err(ValidationError("license", NOT_A_STRING))
      else if v.VStr? && v.s in valid then Ok(Some(v.s))
      else Err(ValidationError("license", "Invalid license: " + Str(v) + ". Must be one of " + StrListRepr(valid)))
  }

  // ---------------------------------------------------------------------
  // The `files: Dict[str, str]` field and its checksum validator.

  /** The entries of a `Dict[str, str]`, or `None` when a value is not a string. */
  function StrEntries(es: seq<(string, Value)>): (r: Option<seq<(string, string)>>)
    ensures r.Some? <==> forall i :: 0 <= i < |es| ==> es[i].1.VStr?
    ensures r.Some? ==> |r.value| == |es| && forall i :: 0 <= i < |es| ==> r.value[i] == (es[i].0, es[i].1.s)
  {
    if es == [] then Some([])
    else if !es[0].1.VStr? then None
    else
      var rest := StrEntries(es[1..]);
      assert forall i :: 1 <= i < |es| ==> es[i] == es[1..][i - 1];
      if rest.None? then None else Some([(es[0].0, es[0].1.s)] + rest.value)
  }

  /** `validate_files(v)`: the first value that is not a valid checksum raises. */
  function CheckChecksums(files: seq<(string, string)>): (r: Result<seq<(string, string)>>)
    ensures r.Ok? <==> forall i :: 0 <= i < |files| ==> Checksums.ValidChecksum(files[i].1)
    ensures r.Ok? ==> r.value == files
    ensures r.Err? ==> exists i :: 0 <= i < |files| && !Checksums.ValidChecksum(files[i].1)
                                   && r.error == ValidationError("files", "Invalid checksum: " + files[i].1)
  {
    if files == [] then Ok([])
    else if !Checksums.ValidChecksum(files[0].1) then Err(ValidationError("files", "Invalid checksum: " + files[0].1))
    else
      var rest := CheckChecksums(files[1..]);
      assert forall i :: 1 <= i < |files| ==> files[i] == files[1..][i - 1];
      if rest.Err? then
        var i :| 0 <= i < |files[1..]| && !Checksums.ValidChecksum(files[1..][i].1)
                 && rest.error == ValidationError("files", "Invalid checksum: " + files[1..][i].1);
        assert files[i + 1] == files[1..][i];
        rest
      else
        assert files == [files[0]] + files[1..];
        Ok(files)
  }

  /** The required `files` field: a mapping from file names to checksums, every
      one of them a valid checksum. */
  function ReadFiles(es: seq<(string, Value)>): (r: Result<seq<(string, string)>>)
    ensures r.Ok? <==> Lookup(es, "files").Some? && Lookup(es, "files").value.VDict?
                       && StrEntries(Lookup(es, "files").value.entries).Some?
                       && forall i :: 0 <= i < |Lookup(es, "files").value.entries| ==>
                            Checksums.ValidChecksum(Lookup(es, "files").value.entries[i].1.s)
    ensures r.Ok? ==> r.value == StrEntries(Lookup(es, "files").value.entries).value
    ensures r.Ok? ==> forall i :: 0 <= i < |r.value| ==> Checksums.ValidChecksum(r.value[i].1)
    ensures r.Err? ==> r.error.ValidationError? && r.error.field == "files"
  {
    match Lookup(es, "files")
    case None => Err(ValidationError("files", FIELD_REQUIRED))
    case Some(v) =>
      if !v.VDict? then Err(ValidationError("files", NOT_A_DICT))
      else
        var files := StrEntries(v.entries);
        if files.None? then Err(ValidationError("files", NOT_A_STRING))
        else CheckChecksums(files.value)
  }
}
