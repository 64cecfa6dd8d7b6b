/** `DatabaseEntry`: the manifest of a named dataset in the current database
    layout, as pydantic validates it from the dataset's YAML file, together
    with the URLs derived from a dataset id.
 */
module DatabaseEntries {
  import opened Wrappers
  import opened Values
  import Strings
  import Utils
  import Manifests
  import Validation

  const LICENSE_URLS: map<string, string> := map[
    "CC BY-NC-SA 4.0" := "https://creativecommons.org/licenses/by-nc-sa/4.0/deed.en",
    "CC BY-NC 4.0" := "https://creativecommons.org/licenses/by-nc/4.0/deed.en",
    "CC BY 4.0" := "https://creativecommons.org/licenses/by/4.0/deed.en",
    "CC0" := "https://creativecommons.org/publicdomain/zero/1.0/",
    "MIT" := "https://opensource.org/licenses/MIT",
    "GPLv3" := "https://www.gnu.org/licenses/gpl-3.0.html"
  ]

  /** `list(LICENSE_URLS.keys())`, in insertion order. */
  const VALID_LICENSES: seq<string> := ["CC BY-NC-SA 4.0", "CC BY-NC 4.0", "CC BY 4.0", "CC0", "MIT", "GPLv3"]

  const VALID_CATEGORIES: seq<string> := ["Benchmarks", "Potential Fitting", "Synthetic Data"]

  /** The license list and the URL table name the same six licenses. */
  lemma LicenseKeys()
    ensures forall l :: l in VALID_LICENSES <==> l in LICENSE_URLS
    ensures |VALID_LICENSES| == |LICENSE_URLS| == 6
  {
    var keys := {"CC BY-NC-SA 4.0", "CC BY-NC 4.0", "CC BY 4.0", "CC0", "MIT", "GPLv3"};
    assert LICENSE_URLS.Keys == keys;
    assert |keys| == 6 by {
      var k3 := {"CC0", "MIT", "GPLv3"};
      assert "CC0"[0] != "MIT"[0];
      assert |k3| == 3;
      assert |{"CC BY-NC-SA 4.0", "CC BY-NC 4.0", "CC BY 4.0"} + k3| == 6;
    }
  }

  datatype Format = Lmdb | Memory

  datatype PropertyDescription = PropertyDescription(desc: string, units: Option<string>)

  datatype Entry = Entry(
    name: string,
    year: int,
    description: string,
    category: string,
    format: Format,
    minimumVersion: Option<string>,
    citation: Option<string>,
    license: Option<string>,
    representativeStructure: Option<int>,
    perAtomProperties: Option<seq<(string, PropertyDescription)>>,
    perStructureProperties: Option<seq<(string, PropertyDescription)>>)

  // ---------------------------------------------------------------------
  // The fields with validators or defaults of their own.

  /** `category: str` with `validate_category`. */
  function ReadCategory(es: seq<(string, Value)>): (r: Result<string>)
    ensures r.Ok? <==> Lookup(es, "category").Some? && Lookup(es, "category").value.VStr?
                       && Lookup(es, "category").value.s in VALID_CATEGORIES
    ensures r.Ok? ==> r.value == Lookup(es, "category").value.s
    ensures r.Err? ==> r.error.ValidationError? && r.error.field == "category"
  {
    var c :- Manifests.ReadStr(es, "category");
    if c in VALID_CATEGORIES then Ok(c)
    else Err(ValidationError("category", "Invalid category: " + c + ". Must be one of " + StrListRepr(VALID_CATEGORIES)))
  }

  /** `format: Literal["lmdb", "memory"] = "memory"`. */
  function ReadFormat(es: seq<(string, Value)>): (r: Result<Format>)
    ensures r.Ok? <==> Lookup(es, "format") in {None, Some(VStr("lmdb")), Some(VStr("memory"))}
    ensures r == Ok(Lmdb) <==> Lookup(es, "format") == Some(VStr("lmdb"))
    ensures Lookup(es, "format").None? ==> r == Ok(Memory)
  {
    match Lookup(es, "format")
    case None => Ok(Memory)
    case Some(v) =>
      if v == VStr("lmdb") then Ok(Lmdb)
      else if v == VStr("memory") then Ok(Memory)
      else Err(ValidationError("format", "Input should be 'lmdb' or 'memory'"))
  }

  /** `minimum_load_atoms_version` with its `mode="before"` validator: any
      value other than `None` is replaced by `str(v)` before the `str` check,
      so the field never fails. */
  function MinimumVersion(es: seq<(string, Value)>): (r: Option<string>)
    ensures r.None? <==> Manifests.Present(es, "minimum_load_atoms_version").None?
    ensures r.Some? && Lookup(es, "minimum_load_atoms_version").value.VStr? ==>
              r.value == Lookup(es, "minimum_load_atoms_version").value.s
    ensures r.Some? && Lookup(es, "minimum_load_atoms_version").value.VInt? && Lookup(es, "minimum_load_atoms_version").value.i >= 0 ==>
              r.value == Strings.NatToString(Lookup(es, "minimum_load_atoms_version").value.i)
  {
    match Manifests.Present(es, "minimum_load_atoms_version")
    case None => None
    case Some(v) => Some(Str(v))
  }

  /** A `PropertyDescription`: `desc: str` and `units: Optional[str] = None`;
      failures are reported against the enclosing field. */
  function PropertyOf(v: Value, field: string): (r: Result<PropertyDescription>)
    ensures r.Ok? <==> v.VDict? && Manifests.ReadStr(v.entries, "desc").Ok? && Manifests.ReadOptStr(v.entries, "units").Ok?
    ensures r.Ok? ==> r.value.desc == Lookup(v.entries, "desc").value.s
    ensures r.Err? ==> r.error.ValidationError? && r.error.field == field
  {
    if !v.VDict? then Err(ValidationError(field, Manifests.NOT_A_DICT))
    else
      var desc := Manifests.ReadStr(v.entries, "desc");
      var units := Manifests.ReadOptStr(v.entries, "units");
      if desc.Err? then Err(ValidationError(field, desc.error.msg))
      else if units.Err? then Err(ValidationError(field, units.error.msg))
      else Ok(PropertyDescription(desc.value, units.value))
  }

  /** The entries of a `Dict[str, PropertyDescription]`, in order. */
  function PropertyEntries(es: seq<(string, Value)>, field: string): (r: Result<seq<(string, PropertyDescription)>>)
    ensures r.Ok? <==> forall i :: 0 <= i < |es| ==> PropertyOf(es[i].1, field).Ok?
    ensures r.Ok? ==> |r.value| == |es|
                      && forall i :: 0 <= i < |es| ==> r.value[i] == (es[i].0, PropertyOf(es[i].1, field).value)
    ensures r.Err? ==> r.error.ValidationError? && r.error.field == field
  {
    if es == [] then Ok([])
    else
      var p :- PropertyOf(es[0].1, field);
      var rest := PropertyEntries(es[1..], field);
      assert forall i :: 1 <= i < |es| ==> es[i] == es[1..][i - 1];
      if rest.Err? then rest else Ok([(es[0].0, p)] + rest.value)
  }

  /** `per_atom_properties` / `per_structure_properties`:
      `Optional[Dict[str, PropertyDescription]] = None`. */
  function ReadProperties(es: seq<(string, Value)>, field: string): (r: Result<Option<seq<(string, PropertyDescription)>>>)
    ensures r.Ok? <==> Manifests.Present(es, field).None?
                       || (Manifests.Present(es, field).value.VDict?
                           && PropertyEntries(Manifests.Present(es, field).value.entries, field).Ok?)
    ensures r.Ok? && Manifests.Present(es, field).None? ==> r.value == None
    ensures r.Err? ==> r.error.ValidationError? && r.error.field == field
  {
    match Manifests.Present(es, field)
    case None => Ok(None)
    case Some(v) =>
      if !v.VDict? then Err(ValidationError(field, Manifests.NOT_A_DICT))
      else
        var ps :- PropertyEntries(v.entries, field);
        Ok(Some(ps))
  }

  // ---------------------------------------------------------------------
  // Construction: `DatabaseEntry(**data)`.

  /** What every constructed entry satisfies: a known category, a license with
      a URL, and a citation that is already stripped and BibTeX-shaped. */
  predicate ValidEntry(e: Entry) {
    && e.category in VALID_CATEGORIES
    && (e.license.Some? ==> e.license.value in LICENSE_URLS)
    && (e.citation.Some? ==> Validation.BibTeXShaped(e.citation.value)
                             && Strings.Strip(e.citation.value) == e.citation.value)
  }

  /** Every field reader accepts its field. */
  predicate FieldsAccepted(es: seq<(string, Value)>) {
    && Manifests.ReadStr(es, "name").Ok? && Manifests.ReadInt(es, "year").Ok?
    && Manifests.ReadStr(es, "description").Ok? && ReadCategory(es).Ok? && ReadFormat(es).Ok?
    && Manifests.ReadCitation(es).Ok? && Manifests.ReadLicense(es, VALID_LICENSES).Ok?
    && Manifests.ReadOptInt(es, "representative_structure").Ok?
    && ReadProperties(es, "per_atom_properties").Ok? && ReadProperties(es, "per_structure_properties").Ok?
  }

  /** The entry the field readers build when every one of them succeeds. */
  function Built(es: seq<(string, Value)>): Entry
    requires FieldsAccepted(es)
  {
    Entry(Manifests.ReadStr(es, "name").value, Manifests.ReadInt(es, "year").value,
          Manifests.ReadStr(es, "description").value, ReadCategory(es).value, ReadFormat(es).value,
          MinimumVersion(es), Manifests.ReadCitation(es).value, Manifests.ReadLicense(es, VALID_LICENSES).value,
          Manifests.ReadOptInt(es, "representative_structure").value,
          ReadProperties(es, "per_atom_properties").value, ReadProperties(es, "per_structure_properties").value)
  }

  lemma BuiltValid(es: seq<(string, Value)>)
    requires FieldsAccepted(es)
    ensures ValidEntry(Built(es))
  {
    var license := Manifests.ReadLicense(es, VALID_LICENSES).value;
    var citation := Manifests.ReadCitation(es).value;
    assert Built(es).license == license && Built(es).citation == citation;
    LicenseKeys();
    assert license.Some? ==> license.value in LICENSE_URLS;
    if citation.Some? {
      Strings.StripIdempotent(Lookup(es, "citation").value.s);
    }
  }

  /** The keyword arguments of `DatabaseEntry(**data)`, checked in
      declaration order; the first failure is reported. */
  function FromEntries(es: seq<(string, Value)>): (r: Result<Entry>)
    ensures r.Ok? <==> FieldsAccepted(es)
    ensures r.Ok? ==> r.value == Built(es) && ValidEntry(r.value)
  {
    var name :- Manifests.ReadStr(es, "name");
    var year :- Manifests.ReadInt(es, "year");
    var description :- Manifests.ReadStr(es, "description");
    var category :- ReadCategory(es);
    var format :- ReadFormat(es);
    var version := MinimumVersion(es);
    var citation :- Manifests.ReadCitation(es);
    var license :- Manifests.ReadLicense(es, VALID_LICENSES);
    var representative :- Manifests.ReadOptInt(es, "representative_structure");
    var perAtom :- ReadProperties(es, "per_atom_properties");
    var perStructure :- ReadProperties(es, "per_structure_properties");
    BuiltValid(es);
    Ok(Entry(name, year, description, category, format, version, citation, license,
             representative, perAtom, perStructure))
  }

  /** `DatabaseEntry(**data)`: a mapping is required. */
  function FromData(data: Value): (r: Result<Entry>)
    ensures r.Ok? <==> data.VDict? && FieldsAccepted(data.entries)
    ensures r.Ok? ==> r.value == Built(data.entries) && ValidEntry(r.value)
    ensures !data.VDict? ==> r.Err? && r.error.TypeError?
  {
    if !data.VDict? then Err(TypeError("argument after ** must be a mapping"))
    else FromEntries(data.entries)
  }

  /** The mappings `FromData` accepts, field by field. */
  predicate Acceptable(es: seq<(string, Value)>) {
    var category := Lookup(es, "category");
    var citation := Lookup(es, "citation");
    var license := Lookup(es, "license");
    var rep := Manifests.Present(es, "representative_structure");
    && Lookup(es, "name").Some? && Lookup(es, "name").value.VStr?
    && Lookup(es, "year").Some? && IsInstance(Lookup(es, "year").value, TInt)
    && Lookup(es, "description").Some? && Lookup(es, "description").value.VStr?
    && category.Some? && category.value.VStr? && category.value.s in VALID_CATEGORIES
    && Lookup(es, "format") in {None, Some(VStr("lmdb")), Some(VStr("memory"))}
    && (citation.None? || (citation.value.VStr? && Validation.BibTeXShaped(Strings.Strip(citation.value.s))))
    && (license.None? || (license.value.VStr? && license.value.s in LICENSE_URLS))
    && (rep.None? || IsInstance(rep.value, TInt))
    && ReadProperties(es, "per_atom_properties").Ok?
    && ReadProperties(es, "per_structure_properties").Ok?
  }

  /** A mapping is accepted iff every field is acceptable on its own. */
  lemma FromDataSucceeds(data: Value)
    ensures FromData(data).Ok? <==> data.VDict? && Acceptable(data.entries)
  {
    LicenseKeys();
  }

  /** What an accepted mapping builds: the given values, the citation
      stripped, the format defaulting to "memory" and the version as text. */
  lemma BuiltFields(es: seq<(string, Value)>)
    requires FieldsAccepted(es)
    ensures var e := Built(es);
            && e.name == Lookup(es, "name").value.s
            && e.year == AsInt(Lookup(es, "year").value)
            && e.description == Lookup(es, "description").value.s
            && e.category == Lookup(es, "category").value.s
            && (e.format == Lmdb <==> Lookup(es, "format") == Some(VStr("lmdb")))
            && e.minimumVersion == MinimumVersion(es)
            && (e.citation.Some? <==> Lookup(es, "citation").Some?)
            && (e.citation.Some? ==> e.citation.value == Strings.Strip(Lookup(es, "citation").value.s))
            && (e.license.Some? <==> Lookup(es, "license").Some?)
            && (e.license.Some? ==> e.license.value == Lookup(es, "license").value.s)
  {
  }

  /** A mapping holding only the four required fields builds the entry with
      every default. */
  lemma MinimalOn(es: seq<(string, Value)>)
    requires Lookup(es, "name") == Some(VStr("x")) && Lookup(es, "year") == Some(VInt(2024))
    requires Lookup(es, "description") == Some(VStr("d")) && Lookup(es, "category") == Some(VStr("Benchmarks"))
    requires Lookup(es, "format").None? && Lookup(es, "minimum_load_atoms_version").None?
    requires Lookup(es, "citation").None? && Lookup(es, "license").None?
    requires Lookup(es, "representative_structure").None?
    requires Lookup(es, "per_atom_properties").None? && Lookup(es, "per_structure_properties").None?
    ensures FieldsAccepted(es)
    ensures Built(es) == Entry("x", 2024, "d", "Benchmarks", Memory, None, None, None, None, None, None)
  {
    assert "Benchmarks" in VALID_CATEGORIES;
  }

  const MINIMAL: seq<(string, Value)> :=
    [("name", VStr("x")), ("year", VInt(2024)), ("description", VStr("d")), ("category", VStr("Benchmarks"))]

  lemma MinimalEntry()
    ensures FromData(VDict(MINIMAL)) == Ok(Entry("x", 2024, "d", "Benchmarks", Memory, None, None, None, None, None, None))
  {
    MinimalPresent();
    MinimalAbsent();
    MinimalOn(MINIMAL);
  }

  lemma MinimalPresent()
    ensures Lookup(MINIMAL, "name") == Some(VStr("x")) && Lookup(MINIMAL, "year") == Some(VInt(2024))
    ensures Lookup(MINIMAL, "description") == Some(VStr("d")) && Lookup(MINIMAL, "category") == Some(VStr("Benchmarks"))
  {
    assert DistinctKeys(MINIMAL);
    LookupAt(MINIMAL, 0);
    LookupAt(MINIMAL, 1);
    LookupAt(MINIMAL, 2);
    LookupAt(MINIMAL, 3);
  }

  lemma MinimalAbsent()
    ensures Lookup(MINIMAL, "format").None? && Lookup(MINIMAL, "minimum_load_atoms_version").None?
    ensures Lookup(MINIMAL, "citation").None? && Lookup(MINIMAL, "license").None?
    ensures Lookup(MINIMAL, "representative_structure").None?
    ensures Lookup(MINIMAL, "per_atom_properties").None? && Lookup(MINIMAL, "per_structure_properties").None?
  {
  }

  // ---------------------------------------------------------------------
  // Loading from a YAML file.

  /** The opening words of the error raised for a description file that
      cannot be built. */
  const STALE_PREFIX: string := "Error loading dataset description from "

  function StaleFileMessage(path: string): (m: string)
    ensures Strings.StartsWith(m, STALE_PREFIX + path)
  {
    var head := STALE_PREFIX + path;
    var m := head + (". It may be that you have a stale version "
      + "of this dataset's yaml file on disk. Please delete the file and try again:\n   $ rm \"" + path + "\"");
    assert m[..|head|] == head;
    m
  }

  /** `from_yaml_file(path)`, where `loaded` is the outcome of opening the
      resolved `path` and parsing it. Opening and parsing errors pass through;
      any failure to build the entry becomes a ValueError naming the path. */
  function FromYamlFile(path: string, loaded: Result<Value>): (r: Result<Entry>)
    ensures loaded.Err? ==> r == Err(loaded.error)
    ensures loaded.Ok? && FromData(loaded.value).Ok? ==> r == FromData(loaded.value)
    ensures loaded.Ok? && FromData(loaded.value).Err? ==> r == Err(ValueError(StaleFileMessage(path)))
  {
    match loaded
    case Err(e) => Err(e)
    case Ok(data) =>
      var e := FromData(data);
      if e.Ok? then e else Err(ValueError(StaleFileMessage(path)))
  }

  // ---------------------------------------------------------------------
  // URLs and importer module names derived from a dataset id.

  /** `remote_url_for_yaml(id)`: `BASE_REMOTE_URL + id + "/" + id + ".yaml"`. */
  function RemoteUrlForYaml(id: string): (r: string)
    ensures Strings.StartsWith(r, Utils.BASE_REMOTE_URL + id + "/")
    ensures Strings.EndsWith(r, "/" + id + ".yaml")
    ensures |r| == |Utils.BASE_REMOTE_URL| + 2 * |id| + 6
  {
    Utils.BASE_REMOTE_URL + id + "/" + id + ".yaml"
  }

  /** Different ids never share a manifest URL. */
  lemma YamlUrlInjective(a: string, b: string)
    requires RemoteUrlForYaml(a) == RemoteUrlForYaml(b)
    ensures a == b
  {
    var n := |Utils.BASE_REMOTE_URL|;
    assert |a| == |b|;
    assert a == RemoteUrlForYaml(a)[n..n + |a|];
    assert b == RemoteUrlForYaml(b)[n..n + |b|];
  }

  /** `importer_file_stem(id)`: `id.lower().replace("-", "_")`. */
  function ImporterFileStem(id: string): (r: string)
    ensures |r| == |id|
    ensures forall i :: 0 <= i < |r| ==> r[i] != '-' && !('A' <= r[i] <= 'Z')
    ensures forall i :: 0 <= i < |r| ==> r[i] == (if id[i] == '-' then '_' else Strings.LowerChar(id[i]))
  {
    Strings.ReplaceChar(Strings.Lower(id), '-', '_')
  }

  /** A stem is its own stem. */
  lemma {:induction false} ImporterFileStemIdempotent(id: string)
    ensures ImporterFileStem(ImporterFileStem(id)) == ImporterFileStem(id)
  {
    var s := ImporterFileStem(id);
    forall i | 0 <= i < |s|
      ensures ImporterFileStem(s)[i] == s[i]
    {
      assert s[i] != '-' && !('A' <= s[i] <= 'Z');
    }
  }

  lemma ImporterFileStemExamples()
    ensures ImporterFileStem("C-GAP-17") == "c_gap_17"
    ensures ImporterFileStem("QM9") == ImporterFileStem("qm9")
  {
  }

  /** `remote_url_for_importer(id)`: the importer module's URL in the repository. */
  function RemoteUrlForImporter(id: string): (r: string)
    ensures Strings.StartsWith(r, Utils.BASE_REMOTE_URL + "src/load_atoms/database/importers/")
    ensures Strings.EndsWith(r, ImporterFileStem(id) + ".py")
  {
    Utils.BASE_REMOTE_URL + "src/load_atoms/database/importers/" + ImporterFileStem(id) + ".py"
  }

  /** Two ids share an importer URL iff they share a stem: ids differing only
      in case, or in '-' versus '_', load the same importer. */
  lemma ImporterUrlSharedIffStem(a: string, b: string)
    ensures RemoteUrlForImporter(a) == RemoteUrlForImporter(b) <==> ImporterFileStem(a) == ImporterFileStem(b)
  {
    var p := Utils.BASE_REMOTE_URL + "src/load_atoms/database/importers/";
    var sa := ImporterFileStem(a);
    var sb := ImporterFileStem(b);
    if RemoteUrlForImporter(a) == RemoteUrlForImporter(b) {
      assert |sa| == |sb|;
      assert sa == RemoteUrlForImporter(a)[|p|..|p| + |sa|];
      assert sb == RemoteUrlForImporter(b)[|p|..|p| + |sb|];
    }
  }
}
