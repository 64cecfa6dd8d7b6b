/** The older `DatasetInfo` of the `shared` package: the same manifest model
    with a three-name license list, a list of representative structures, a
    different base URL, and a loader that does not wrap construction errors.
 */
module SharedDatasetInfos {
  import opened Wrappers
  import opened Values
  import Strings
  import Checksums
  import Manifests
  import Validation
  import DatasetInfos

  const BASE_REMOTE_URL: string := "https://github.com/jla-gardner/load-atoms/raw/main/src/load_atoms/datasets/"

  /** The license names `validate_license` accepts. */
  const VALID_LICENSES: seq<string> := ["MIT", "CC-BY-4.0", "CC BY-NC-SA 4.0"]

  datatype Info = Info(
    name: string,
    description: string,
    files: seq<(string, string)>,
    citation: Option<string>,
    license: Option<string>,
    representativeStructures: Option<seq<int>>,
    longDescription: Option<string>,
    perAtomProperties: Option<seq<(string, Value)>>,
    perStructureProperties: Option<seq<(string, Value)>>,
    urlRoot: Option<string>)

  /** Every field reader accepts its field. */
  predicate FieldsAccepted(es: seq<(string, Value)>) {
    && Manifests.ReadStr(es, "name").Ok? && Manifests.ReadStr(es, "description").Ok?
    && Manifests.ReadFiles(es).Ok? && Manifests.ReadCitation(es).Ok?
    && Manifests.ReadLicense(es, VALID_LICENSES).Ok?
    && Manifests.ReadOptIntList(es, "representative_structures").Ok?
    && Manifests.ReadOptStr(es, "long_description").Ok?
    && Manifests.ReadOptDict(es, "per_atom_properties").Ok?
    && Manifests.ReadOptDict(es, "per_structure_properties").Ok?
    && Manifests.ReadOptStr(es, "url_root").Ok?
  }

  /** The record the field readers build when every one of them succeeds. */
  function Built(es: seq<(string, Value)>): Info
    requires FieldsAccepted(es)
  {
    Info(Manifests.ReadStr(es, "name").value, Manifests.ReadStr(es, "description").value,
         Manifests.ReadFiles(es).value, Manifests.ReadCitation(es).value,
         Manifests.ReadLicense(es, VALID_LICENSES).value,
         Manifests.ReadOptIntList(es, "representative_structures").value,
         Manifests.ReadOptStr(es, "long_description").value,
         Manifests.ReadOptDict(es, "per_atom_properties").value,
         Manifests.ReadOptDict(es, "per_structure_properties").value,
         Manifests.ReadOptStr(es, "url_root").value)
  }

  /** What every constructed record satisfies. */
  predicate ValidInfo(info: Info) {
    && (forall i :: 0 <= i < |info.files| ==> Checksums.ValidChecksum(info.files[i].1))
    && (info.license.Some? ==> info.license.value in VALID_LICENSES)
    && (info.citation.Some? ==> Validation.BibTeXShaped(info.citation.value)
                                && Strings.Strip(info.citation.value) == info.citation.value)
  }

  lemma BuiltValid(es: seq<(string, Value)>)
    requires FieldsAccepted(es)
    ensures ValidInfo(Built(es))
  {
    BuiltFilesValid(es);
    BuiltLicenseValid(es);
    BuiltCitationValid(es);
  }

  lemma BuiltFilesValid(es: seq<(string, Value)>)
    requires FieldsAccepted(es)
    ensures forall i :: 0 <= i < |Built(es).files| ==> Checksums.ValidChecksum(Built(es).files[i].1)
  {
  }

  lemma BuiltLicenseValid(es: seq<(string, Value)>)
    requires FieldsAccepted(es)
    ensures Built(es).license.Some? ==> Built(es).license.value in VALID_LICENSES
  {
  }

  lemma BuiltCitationValid(es: seq<(string, Value)>)
    requires FieldsAccepted(es)
    ensures Built(es).citation.Some? ==> Validation.BibTeXShaped(Built(es).citation.value)
                                         && Strings.Strip(Built(es).citation.value) == Built(es).citation.value
  {
    if Manifests.ReadCitation(es).value.Some? {
      Manifests.ReadCitationValid(es);
    }
  }

  /** `DatasetInfo(**data)`; the first failing field is reported. */
  function FromData(data: Value): (r: Result<Info>)
    ensures r.Ok? <==> data.VDict? && FieldsAccepted(data.entries)
    ensures r.Ok? ==> r.value == Built(data.entries) && ValidInfo(r.value)
    ensures !data.VDict? ==> r.Err? && r.error.TypeError?
  {
    if !data.VDict? then Err(TypeError("argument after ** must be a mapping"))
    else
      var es := data.entries;
      var name :- Manifests.ReadStr(es, "name");
      var description :- Manifests.ReadStr(es, "description");
      var files :- Manifests.ReadFiles(es);
      var citation :- Manifests.ReadCitation(es);
      var license :- Manifests.ReadLicense(es, VALID_LICENSES);
      var representatives :- Manifests.ReadOptIntList(es, "representative_structures");
      var longDescription :- Manifests.ReadOptStr(es, "long_description");
      var perAtom :- Manifests.ReadOptDict(es, "per_atom_properties");
      var perStructure :- Manifests.ReadOptDict(es, "per_structure_properties");
      var urlRoot :- Manifests.ReadOptStr(es, "url_root");
      BuiltValid(es);
      Ok(Info(name, description, files, citation, license, representatives, longDescription,
              perAtom, perStructure, urlRoot))
  }

  /** The two models disagree on licenses: "CC-BY-4.0" is accepted only here,
      "CC BY 4.0" and "CC BY-NC 4.0" only by the newer model. */
  lemma LicenseListsDiffer()
    ensures "CC-BY-4.0" in VALID_LICENSES && "CC-BY-4.0" !in DatasetInfos.VALID_LICENSES
    ensures "CC BY 4.0" !in VALID_LICENSES && "CC BY 4.0" in DatasetInfos.VALID_LICENSES
    ensures forall l :: l in VALID_LICENSES && l in DatasetInfos.VALID_LICENSES <==> l in {"MIT", "CC BY-NC-SA 4.0"}
  {
  }

  /** `from_yaml_file(path)`: construction errors are not wrapped. */
  function FromYamlFile(loaded: Result<Value>): (r: Result<Info>)
    ensures loaded.Err? ==> r == Err(loaded.error)
    ensures loaded.Ok? ==> r == FromData(loaded.value)
  {
    var data :- loaded;
    FromData(data)
  }

  /** Unlike the newer loader, a rejected mapping keeps its own error: a
      missing `files` field surfaces as a ValidationError for `files`, not a
      ValueError naming the path. */
  lemma ErrorsNotWrapped(path: string, es: seq<(string, Value)>)
    requires Manifests.ReadStr(es, "name").Ok? && Manifests.ReadStr(es, "description").Ok?
    requires Lookup(es, "files").None?
    ensures FromYamlFile(Ok(VDict(es))).Err? && FromYamlFile(Ok(VDict(es))).error == ValidationError("files", Manifests.FIELD_REQUIRED)
    ensures DatasetInfos.FromYamlFile(path, Ok(VDict(es))).error.ValueError?
  {
  }

  /** `self.url_root or BASE_REMOTE_URL + self.name + "/"`. */
  function BaseUrl(info: Info): (r: string)
    ensures info.urlRoot.Some? && info.urlRoot.value != "" ==> r == info.urlRoot.value
    ensures info.urlRoot.None? || info.urlRoot.value == "" ==> r == BASE_REMOTE_URL + info.name + "/"
  {
    if info.urlRoot.Some? && info.urlRoot.value != "" then info.urlRoot.value
    else BASE_REMOTE_URL + info.name + "/"
  }

  /** `remote_file_locations()`: each file's URL under the base, paired with
      the file's checksum, in the order of `files`. */
  function RemoteFileLocations(info: Info): (r: seq<(string, string)>)
    ensures |r| == |info.files|
    ensures forall i :: 0 <= i < |r| ==> Strings.StartsWith(r[i].0, BaseUrl(info))
                                         && r[i].0[|BaseUrl(info)|..] == info.files[i].0
                                         && r[i].1 == info.files[i].1
  {
    seq(|info.files|, i requires 0 <= i < |info.files| => (BaseUrl(info) + info.files[i].0, info.files[i].1))
  }

  /** Distinct file names give distinct URLs, each with a valid checksum. */
  lemma RemoteFileLocationsDistinct(info: Info)
    requires ValidInfo(info)
    requires forall i, j :: 0 <= i < j < |info.files| ==> info.files[i].0 != info.files[j].0
    ensures var r := RemoteFileLocations(info);
            && (forall i, j :: 0 <= i < j < |r| ==> r[i].0 != r[j].0)
            && (forall i :: 0 <= i < |r| ==> Checksums.ValidChecksum(r[i].1))
  {
    var r := RemoteFileLocations(info);
    forall i, j | 0 <= i < j < |r|
      ensures r[i].0 != r[j].0
    {
      assert r[i].0[|BaseUrl(info)|..] == info.files[i].0;
      assert r[j].0[|BaseUrl(info)|..] == info.files[j].0;
    }
  }

  /** `description_file_url(id)`: under the older base, so it never equals the
      newer model's URL for the same id. */
  function DescriptionFileUrl(id: string): (r: string)
    ensures Strings.StartsWith(r, BASE_REMOTE_URL + id + "/") && Strings.EndsWith(r, "/" + id + ".yaml")
    ensures r != DatasetInfos.DescriptionFileUrl(id)
  {
    BASE_REMOTE_URL + id + "/" + id + ".yaml"
  }
}
