/** `DatasetInfo` (the manifest model of the download-and-cache backend): the
    metadata of one dataset with the checksum of every file it consists of,
    validated by pydantic from the dataset's YAML file, and the URLs those
    files are fetched from.
 */
module DatasetInfos {
  import opened Wrappers
  import opened Values
  import Strings
  import Utils
  import Checksums
  import Manifests
  import Validation
  import DatabaseEntries

  /** The keys of `valid_licenses`, in insertion order. */
  const VALID_LICENSES: seq<string> := ["CC BY-NC-SA 4.0", "CC BY-NC 4.0", "CC BY 4.0", "MIT"]

  datatype Info = Info(
    name: string,
    description: string,
    files: seq<(string, string)>,
    citation: Option<string>,
    license: Option<string>,
    representativeStructure: Option<int>,
    longDescription: Option<string>,
    perAtomProperties: Option<seq<(string, Value)>>,
    perStructureProperties: Option<seq<(string, Value)>>,
    urlRoot: Option<string>)

  /** Every field reader accepts its field. */
  predicate FieldsAccepted(es: seq<(string, Value)>) {
    && Manifests.ReadStr(es, "name").Ok? && Manifests.ReadStr(es, "description").Ok?
    && Manifests.ReadFiles(es).Ok? && Manifests.ReadCitation(es).Ok?
    && Manifests.ReadLicense(es, VALID_LICENSES).Ok?
    && Manifests.ReadOptInt(es, "representative_structure").Ok?
    && Manifests.ReadOptStr(es, "long_description").Ok?
    && Manifests.ReadOptDict(es, "per_atom_properties").Ok?
    && Manifests.ReadOptDict(es, "per_structure_properties").Ok?
    && Manifests.ReadOptStr(es, "url_root").Ok?
  }

  /** The record the field readers build when every one of them succeeds. */
  function Built(es: seq<(string, Value)>): Info
    requires FieldsAccepted(es)
  {
    Info(Manifests.ReadStr(es, "name").value, Manifests.ReadStr(es, "description").value,
         Manifests.ReadFiles(es).value, Manifests.ReadCitation(es).value,
         Manifests.ReadLicense(es, VALID_LICENSES).value,
         Manifests.ReadOptInt(es, "representative_structure").value,
         Manifests.ReadOptStr(es, "long_description").value,
         Manifests.ReadOptDict(es, "per_atom_properties").value,
         Manifests.ReadOptDict(es, "per_structure_properties").value,
         Manifests.ReadOptStr(es, "url_root").value)
  }

  /** What every constructed record satisfies: valid checksums, a known
      license and a stripped BibTeX-shaped citation. */
  predicate ValidInfo(info: Info) {
    && (forall i :: 0 <= i < |info.files| ==> Checksums.ValidChecksum(info.files[i].1))
    && (info.license.Some? ==> info.license.value in VALID_LICENSES)
    && (info.citation.Some? ==> Validation.BibTeXShaped(info.citation.value)
                                && Strings.Strip(info.citation.value) == info.citation.value)
  }

  /** `DatasetInfo(**data)`; the first failing field is reported. */
  function FromData(data: Value): (r: Result<Info>)
    ensures r.Ok? <==> data.VDict? && FieldsAccepted(data.entries)
    ensures r.Ok? ==> r.value == Built(data.entries) && ValidInfo(r.value)
    ensures !data.VDict? ==> r.Err? && r.error.TypeError?
  {
    if !data.VDict? then Err(TypeError("argument after ** must be a mapping"))
    else
      var es := data.entries;
      var name :- Manifests.ReadStr(es, "name");
      var description :- Manifests.ReadStr(es, "description");
      var files :- Manifests.ReadFiles(es);
      var citation :- Manifests.ReadCitation(es);
      var license :- Manifests.ReadLicense(es, VALID_LICENSES);
      var representative :- Manifests.ReadOptInt(es, "representative_structure");
      var longDescription :- Manifests.ReadOptStr(es, "long_description");
      var perAtom :- Manifests.ReadOptDict(es, "per_atom_properties");
      var perStructure :- Manifests.ReadOptDict(es, "per_structure_properties");
      var urlRoot :- Manifests.ReadOptStr(es, "url_root");
      BuiltValid(es);
      Ok(Info(name, description, files, citation, license, representative, longDescription,
              perAtom, perStructure, urlRoot))
  }

  lemma BuiltValid(es: seq<(string, Value)>)
    requires FieldsAccepted(es)
    ensures ValidInfo(Built(es))
  {
    Strings.StripIdempotent(Lookup(es, "citation").GetOr(VStr("")).s);
  }

  /** What an accepted mapping builds: the files with their checksums in the
      given order, the stripped citation and the given license. */
  lemma BuiltFields(es: seq<(string, Value)>)
    requires FieldsAccepted(es)
    ensures var info := Built(es);
            var files := Lookup(es, "files").value.entries;
            && info.name == Lookup(es, "name").value.s
            && |info.files| == |files|
            && (forall i :: 0 <= i < |files| ==> info.files[i] == (files[i].0, files[i].1.s))
            && (info.citation.Some? <==> Lookup(es, "citation").Some?)
            && (info.citation.Some? ==> info.citation.value == Strings.Strip(Lookup(es, "citation").value.s))
            && (info.license.Some? <==> Lookup(es, "license").Some?)
            && (info.license.Some? ==> info.license.value == Lookup(es, "license").value.s)
  {
  }

  /** A `files` mapping with a value that is not a valid checksum is rejected. */
  lemma InvalidChecksumRejected(data: Value, i: nat)
    requires data.VDict? && Lookup(data.entries, "files").Some?
    requires var files := Lookup(data.entries, "files").value;
             files.VDict? && i < |files.entries| && files.entries[i].1.VStr?
             && !Checksums.ValidChecksum(files.entries[i].1.s)
    ensures FromData(data).Err?
  {
  }

  /** `from_yaml_file(path)`, where `loaded` is the outcome of opening and
      parsing `path`: a failure to build the record becomes a ValueError
      naming the path. */
  function FromYamlFile(path: string, loaded: Result<Value>): (r: Result<Info>)
    ensures loaded.Err? ==> r == Err(loaded.error)
    ensures loaded.Ok? ==> (r.Ok? <==> FromData(loaded.value).Ok?)
    ensures loaded.Ok? && r.Ok? ==> r == FromData(loaded.value)
    ensures loaded.Ok? && r.Err? ==> r.error == ValueError("Error loading dataset description from " + path)
  {
    var data :- loaded;
    var info := FromData(data);
    if info.Ok? then info else Err(ValueError("Error loading dataset description from " + path))
  }

  /** `self.url_root or BASE_REMOTE_URL + self.name + "/"`: an empty root is
      falsy and falls back to the default. */
  function BaseUrl(info: Info): (r: string)
    ensures info.urlRoot.Some? && info.urlRoot.value != "" ==> r == info.urlRoot.value
    ensures info.urlRoot.None? || info.urlRoot.value == "" ==> r == Utils.BASE_REMOTE_URL + info.name + "/"
  {
    if info.urlRoot.Some? && info.urlRoot.value != "" then info.urlRoot.value
    else Utils.BASE_REMOTE_URL + info.name + "/"
  }

  /** `remote_file_locations()`: each file's URL under the base, paired with
      the file's checksum, in the order of `files`. */
  function RemoteFileLocations(info: Info): (r: seq<(string, string)>)
    ensures |r| == |info.files|
    ensures forall i :: 0 <= i < |r| ==> Strings.StartsWith(r[i].0, BaseUrl(info))
                                         && r[i].0[|BaseUrl(info)|..] == info.files[i].0
                                         && r[i].1 == info.files[i].1
  {
    seq(|info.files|, i requires 0 <= i < |info.files| => (BaseUrl(info) + info.files[i].0, info.files[i].1))
  }

  /** Distinct file names give distinct URLs, and every URL carries a valid
      checksum, so the mapping has one entry per file. */
  lemma RemoteFileLocationsDistinct(info: Info)
    requires ValidInfo(info)
    requires forall i, j :: 0 <= i < j < |info.files| ==> info.files[i].0 != info.files[j].0
    ensures var r := RemoteFileLocations(info);
            && (forall i, j :: 0 <= i < j < |r| ==> r[i].0 != r[j].0)
            && (forall i :: 0 <= i < |r| ==> Checksums.ValidChecksum(r[i].1))
  {
    var r := RemoteFileLocations(info);
    forall i, j | 0 <= i < j < |r|
      ensures r[i].0 != r[j].0
    {
      assert r[i].0[|BaseUrl(info)|..] == info.files[i].0;
      assert r[j].0[|BaseUrl(info)|..] == info.files[j].0;
    }
  }

  /** `description_file_url(id)`. */
  function DescriptionFileUrl(id: string): (r: string)
    ensures r == DatabaseEntries.RemoteUrlForYaml(id)
  {
    Utils.BASE_REMOTE_URL + id + "/" + id + ".yaml"
  }
}
