/** `load_atoms/database/backend.py`: loading a dataset by id. The manifest
    `root/<id>/<id>.yaml` is fetched when absent and gated on the library
    version; a cached `root/<id>/<id>.pkl` is read back when present, and
    otherwise the dataset's importer (fetched when absent) builds the dataset
    under `root/raw-downloads`, after which it is cached. Nothing is rolled
    back when a step fails.
 */
module DatabaseBackend {
  import opened Wrappers
  import opened Files
  import opened Values
  import Strings
  import Utils
  import Checksums
  import AtomsDatasets
  import DatabaseEntries
  import Importers
  import opened Structures

  /** `load_atoms.__version__`. */
  const CURRENT_VERSION: string := "0.1.4"

  /** The pickle format: what `dumps` writes for a saved dataset and what
      `loads` makes of a file's bytes. */
  datatype Pickle = Pickle(
    dumps: AtomsDatasets.PickledDataset -> seq<byte>,
    loads: seq<byte> -> Result<AtomsDatasets.PickledDataset>)

  /** Loading what was dumped gives it back. */
  ghost predicate RoundTrips(p: Pickle) {
    forall d :: p.loads(p.dumps(d)) == Ok(d)
  }

  /** Everything the backend reaches beyond the file system: the network,
      the YAML parser, the importer modules by stem, the hash, the process
      environment, the library version, the package directory holding the
      importers, and pickle. */
  datatype World = World(
    net: Importers.Network,
    parseYaml: seq<byte> -> Result<Value>,
    importers: string -> Result<Importers.Importer>,
    digest: Checksums.Digest,
    env: Utils.Env,
    version: string,
    packageDir: Path,
    pickle: Pickle)

  // ---------------------------------------------------------------------
  // Paths

  function DatasetDir(root: Path, id: string): Path {
    Join(root, id)
  }

  function YamlPath(root: Path, id: string): (r: Path)
    ensures Parent(r) == DatasetDir(root, id) && Name(r) == id + ".yaml"
  {
    Join(DatasetDir(root, id), id + ".yaml")
  }

  function DataPath(root: Path, id: string): (r: Path)
    ensures Parent(r) == DatasetDir(root, id) && Name(r) == id + ".pkl"
  {
    Join(DatasetDir(root, id), id + ".pkl")
  }

  /** Manifest and cache sit side by side in `root/<id>` and never coincide;
      different ids use different directories. */
  lemma CachePaths(root: Path, id: string, other: string)
    ensures YamlPath(root, id) != DataPath(root, id)
    ensures Parent(YamlPath(root, id)) == Parent(DataPath(root, id)) == Join(root, id)
    ensures id != other ==> DatasetDir(root, id) != DatasetDir(root, other)
  {
    assert Name(YamlPath(root, id))[|id|..] == ".yaml";
    assert Name(DataPath(root, id))[|id|..] == ".pkl";
    if id != other {
      assert Name(DatasetDir(root, id)) == id && Name(DatasetDir(root, other)) == other;
    }
  }

  /** `path.read_bytes()`: a file's contents; anything else cannot be opened. */
  function ReadBytes(fs: FileSystem, p: Path): (r: Result<seq<byte>>)
    ensures r.Ok? <==> IsFile(fs, p)
    ensures r.Ok? ==> r.value == fs[p].bytes
  {
    if IsFile(fs, p) then Ok(fs[p].bytes) else Err(FileNotFound(Show(p)))
  }

  /** Fetch `url` into `path` unless something is already there; a failed
      download means the dataset is unknown. */
  function FetchIfAbsent(url: string, path: Path, id: string, fs: FileSystem, net: Importers.Network): (r: (FileSystem, Result<()>))
    ensures path in fs ==> r == (fs, Ok(()))
    ensures path !in fs ==> (r.1.Ok? <==> net(url).Ok?)
    ensures r.1.Err? ==> r.1.error == UnknownDataset(id) && r.0 == fs
    ensures r.1.Ok? ==> path in r.0 && (path !in fs ==> r.0 == WriteFile(fs, path, net(url).value))
  {
    if path in fs then (fs, Ok(()))
    else
      match net(url)
      case Err(_) => (fs, Err(UnknownDataset(id)))
      case Ok(data) => (WriteFile(fs, path, data), Ok(()))
  }

  // ---------------------------------------------------------------------
  // get_database_entry

  /** The manifest at `yaml`, once it exists: opened, parsed and validated. */
  function ReadEntry(yaml: Path, fs: FileSystem, w: World): (r: Result<DatabaseEntries.Entry>) {
    var loaded := match ReadBytes(fs, yaml)
                  case Err(e) => Err(e)
                  case Ok(data) => w.parseYaml(data);
    DatabaseEntries.FromYamlFile(Show(yaml), loaded)
  }

  /** `minimum_load_atoms_version > load_atoms_version`, as strings. */
  predicate NeedsUpgrade(e: DatabaseEntries.Entry, version: string) {
    e.minimumVersion.Some? && Strings.Less(version, e.minimumVersion.value)
  }

  /** `get_database_entry(dataset_id, yaml_file_path)`: the validated entry
      and the file system afterwards. */
  function GetDatabaseEntry(id: string, yaml: Path, fs: FileSystem, w: World): (r: (Result<DatabaseEntries.Entry>, FileSystem))
    ensures var (fs1, got) := FetchIfAbsent(DatabaseEntries.RemoteUrlForYaml(id), yaml, id, fs, w.net);
            && r.1 == fs1
            && (got.Err? ==> r.0 == Err(UnknownDataset(id)))
            && (got.Ok? && ReadEntry(yaml, fs1, w).Err? ==> r.0 == ReadEntry(yaml, fs1, w))
            && (got.Ok? && ReadEntry(yaml, fs1, w).Ok? ==>
                  (r.0.Ok? <==> !NeedsUpgrade(ReadEntry(yaml, fs1, w).value, w.version))
                  && (r.0.Ok? ==> r.0.value == ReadEntry(yaml, fs1, w).value)
                  && (r.0.Err? ==> r.0.error.UpgradeRequired?))
  {
    var (fs1, got) := FetchIfAbsent(DatabaseEntries.RemoteUrlForYaml(id), yaml, id, fs, w.net);
    if got.Err? then (Err(got.error), fs1)
    else
      match ReadEntry(yaml, fs1, w)
      case Err(e) => (Err(e), fs1)
      case Ok(e) =>
        if NeedsUpgrade(e, w.version) then (Err(UpgradeRequired(id, e.minimumVersion.value, w.version)), fs1)
        else (Ok(e), fs1)
  }

  /** A manifest already on disk is used as it is: the network plays no part. */
  lemma ManifestOnDiskUsed(id: string, yaml: Path, fs: FileSystem, w: World, net: Importers.Network)
    requires yaml in fs
    ensures GetDatabaseEntry(id, yaml, fs, w) == GetDatabaseEntry(id, yaml, fs, w.(net := net))
    ensures GetDatabaseEntry(id, yaml, fs, w).1 == fs
  {
    assert ReadEntry(yaml, fs, w) == ReadEntry(yaml, fs, w.(net := net));
  }

  /** An absent manifest that cannot be downloaded makes the id unknown. */
  lemma UnreachableManifestUnknown(id: string, yaml: Path, fs: FileSystem, w: World)
    requires yaml !in fs && w.net(DatabaseEntries.RemoteUrlForYaml(id)).Err?
    ensures GetDatabaseEntry(id, yaml, fs, w) == (Err(UnknownDataset(id)), fs)
  {
  }

  /** The version gate compares text, not numbers: "0.1.10" is below
      "0.1.4", so a dataset needing 0.1.10 loads under 0.1.4, while one
      needing 0.2 does not. */
  lemma VersionGateLexicographic(e: DatabaseEntries.Entry)
    ensures e.minimumVersion == Some("0.1.10") ==> !NeedsUpgrade(e, CURRENT_VERSION)
    ensures e.minimumVersion == Some("0.2") ==> NeedsUpgrade(e, CURRENT_VERSION)
    ensures e.minimumVersion == Some(CURRENT_VERSION) ==> !NeedsUpgrade(e, CURRENT_VERSION)
  {
    assert CURRENT_VERSION[4] == '4' && "0.1.10"[4] == '1';
    assert CURRENT_VERSION[..4] == "0.1.10"[..4];
    assert Strings.Less("0.1.10", CURRENT_VERSION);
    Strings.LessAsymmetric("0.1.10", CURRENT_VERSION);
    assert CURRENT_VERSION[2] == '1' && "0.2"[2] == '2';
    assert Strings.Less(CURRENT_VERSION, "0.2");
    Strings.LessIrreflexive(CURRENT_VERSION);
  }

  // ---------------------------------------------------------------------
  // import_dataset

  /** Where the importer module of a dataset lives inside the package. */
  function ImporterPath(packageDir: Path, id: string): (r: Path)
    ensures Name(r) == DatabaseEntries.ImporterFileStem(id) + ".py"
    ensures Parent(r) == Join(packageDir, "importers")
  {
    Join(Join(packageDir, "importers"), DatabaseEntries.ImporterFileStem(id) + ".py")
  }

  /** `import_dataset(dataset_id, root, database_entry)`: the importer module
      named after the id's stem is fetched when absent, imported, and run
      against `root/raw-downloads`. */
  function ImportDataset(id: string, root: Path, entry: DatabaseEntries.Entry, fs: FileSystem, w: World)
    : (r: (Result<AtomsDatasets.Dataset>, FileSystem, seq<Importers.Warning>))
    ensures r.0.Ok? ==> r.0.value.InMemory? && r.0.value.description == Some(entry)
    ensures var (fs1, got) := FetchIfAbsent(DatabaseEntries.RemoteUrlForImporter(id), ImporterPath(w.packageDir, id), id, fs, w.net);
            && (got.Err? ==> r == (Err(UnknownDataset(id)), fs1, []))
            && (got.Ok? && w.importers(DatabaseEntries.ImporterFileStem(id)).Err? ==>
                  r == (Err(w.importers(DatabaseEntries.ImporterFileStem(id)).error), fs1, []))
            && (got.Ok? && w.importers(DatabaseEntries.ImporterFileStem(id)).Ok? ==>
                  r == Importers.GetDataset(w.importers(DatabaseEntries.ImporterFileStem(id)).value,
                                            Join(root, "raw-downloads"), entry, w.env, fs1, w.net, w.digest))
  {
    var stem := DatabaseEntries.ImporterFileStem(id);
    var (fs1, got) := FetchIfAbsent(DatabaseEntries.RemoteUrlForImporter(id), ImporterPath(w.packageDir, id), id, fs, w.net);
    if got.Err? then (Err(got.error), fs1, [])
    else
      match w.importers(stem)
      case Err(e) => (Err(e), fs1, [])
      case Ok(imp) => Importers.GetDataset(imp, Join(root, "raw-downloads"), entry, w.env, fs1, w.net, w.digest)
  }

  /** Ids that differ only in case or in '-' versus '_' share one importer
      module. */
  lemma SharedImporter(a: string, b: string, root: Path, entry: DatabaseEntries.Entry, fs: FileSystem, w: World)
    requires DatabaseEntries.ImporterFileStem(a) == DatabaseEntries.ImporterFileStem(b)
    requires ImporterPath(w.packageDir, a) in fs
    ensures ImportDataset(a, root, entry, fs, w) == ImportDataset(b, root, entry, fs, w)
  {
  }

  // ---------------------------------------------------------------------
  // log_usage_information

  function Bold(name: string): string {
    "[bold]" + name + "[/bold]"
  }

  /** The lines `log_usage_information` prints below the progress display:
      a blank line, the license line if there is a license (its URL looked up
      in `LICENSE_URLS`), the citation line if there is a citation, the line
      introducing the link, and the link. */
  function UsageInformation(e: DatabaseEntries.Entry): (r: Result<seq<string>>)
    ensures r.Err? <==> e.license.Some? && e.license.value !in DatabaseEntries.LICENSE_URLS
    ensures r.Ok? ==> |r.value| == 3 + (if e.license.Some? then 1 else 0) + (if e.citation.Some? then 1 else 0)
    ensures r.Ok? ==> r.value[0] == "\n" && Strings.EndsWith(r.value[|r.value| - 1], "]load-atoms/" + e.name)
    ensures r.Ok? && e.license.Some? ==> Strings.EndsWith(r.value[1], "[/] license.")
  {
    if e.license.Some? && e.license.value !in DatabaseEntries.LICENSE_URLS then Err(KeyError(e.license.value))
    else
      var name := Bold(e.name);
      var citationLine := if e.citation.Some? then Some("Please cite the " + name + " dataset if you use it in your work.") else None;
      var notice := Utils.UsageNotice(LicenseLine(e), citationLine, "For more information about the " + name + " dataset, visit:");
      Ok(["\n"] + notice + [UrlLine(e)])
  }

  /** The line naming the license and linking to its text, for a known license. */
  function LicenseLine(e: DatabaseEntries.Entry): (r: Option<string>)
    requires e.license.Some? ==> e.license.value in DatabaseEntries.LICENSE_URLS
    ensures r.Some? <==> e.license.Some?
    ensures r.Some? ==> Strings.EndsWith(r.value, "[/] license.")
  {
    if e.license.Some? then
      var style := "dodger_blue2 link=" + DatabaseEntries.LICENSE_URLS[e.license.value] + " underline";
      var l := "The " + Bold(e.name) + " dataset is covered by the [" + style + "]" + e.license.value + "[/] license.";
      assert l[|l| - |"[/] license."|..] == "[/] license.";
      Some(l)
    else None
  }

  /** The last line: a link to the dataset's page, ending in `load-atoms/<name>`. */
  function UrlLine(e: DatabaseEntries.Entry): (r: string)
    ensures Strings.EndsWith(r, "]load-atoms/" + e.name)
  {
    var l := "[dodger_blue2 underline link=" + Utils.FrontendUrl(e.name) + "]load-atoms/" + e.name;
    assert l[|l| - |"]load-atoms/" + e.name|..] == "]load-atoms/" + e.name;
    l
  }

  /** Every validated entry has a usage notice: its license, if any, has a
      URL. */
  lemma ValidEntryHasNotice(e: DatabaseEntries.Entry)
    requires DatabaseEntries.ValidEntry(e)
    ensures UsageInformation(e).Ok?
  {
  }

  // ---------------------------------------------------------------------
  // load_dataset

  /** The dataset read back from the cache file, with the constructor's
      warnings. */
  function LoadCached(data: Path, fs: FileSystem, w: World): (r: (Result<AtomsDatasets.Dataset>, seq<Importers.Warning>))
    ensures r.0.Ok? ==> IsFile(fs, data) && w.pickle.loads(fs[data].bytes).Ok?
    ensures r.0.Ok? ==> r.0.value == AtomsDatasets.LoadInMemory(w.pickle.loads(fs[data].bytes).value).0
    ensures r.1 != [] <==> r.0.Ok? && |AtomsDatasets.Iter(r.0.value)| == 1
  {
    match ReadBytes(fs, data)
    case Err(e) => (Err(e), [])
    case Ok(bytes) =>
      match w.pickle.loads(bytes)
      case Err(e) => (Err(e), [])
      case Ok(p) =>
        var (d, built) := AtomsDatasets.LoadInMemory(p);
        (Ok(d), Importers.DatasetWarnings(built))
  }

  /** `dataset.save(data_file_path)`: the pickled structures and description. */
  function SaveCached(ss: seq<Structure>, description: Option<DatabaseEntries.Entry>, data: Path, fs: FileSystem, w: World): (r: FileSystem)
    ensures IsFile(r, data) && r[data].bytes == w.pickle.dumps(AtomsDatasets.SaveInMemory(ss, description))
    ensures SameElsewhere(fs, r, data)
  {
    WriteFile(fs, data, w.pickle.dumps(AtomsDatasets.SaveInMemory(ss, description)))
  }

  /** What `load_dataset` returns: the dataset and the usage notice it logs. */
  datatype Loaded = Loaded(dataset: AtomsDatasets.Dataset, notice: seq<string>)

  /** The structures: from the cache when the cache file exists, otherwise
      from the importer, and then cached. */
  function FetchStructures(id: string, root: Path, entry: DatabaseEntries.Entry, fs: FileSystem, w: World)
    : (r: (Result<AtomsDatasets.Dataset>, FileSystem, seq<Importers.Warning>))
    ensures DataPath(root, id) in fs ==> r == (LoadCached(DataPath(root, id), fs, w).0, fs, LoadCached(DataPath(root, id), fs, w).1)
    ensures DataPath(root, id) !in fs ==>
              var (imported, fs1, warnings) := ImportDataset(id, root, entry, fs, w);
              && r.2 == warnings
              && (imported.Err? ==> r.0 == imported && r.1 == fs1)
              && (imported.Ok? ==> r.0 == imported && imported.value.InMemory?
                                   && r.1 == SaveCached(imported.value.structures, imported.value.description, DataPath(root, id), fs1, w))
  {
    var data := DataPath(root, id);
    if data in fs then
      var (got, ws) := LoadCached(data, fs, w);
      (got, fs, ws)
    else
      var (imported, fs1, warnings) := ImportDataset(id, root, entry, fs, w);
      match imported
      case Err(e) => (Err(e), fs1, warnings)
      case Ok(d) =>
        match d
        case InMemory(ss, description) => (Ok(d), SaveCached(ss, description, data, fs1, w), warnings)
  }

  /** `load_dataset(dataset_id, root)`: the dataset with its usage notice or
      the error, the file system afterwards, and the checksum warnings. */
  function LoadDataset(id: string, root: Path, fs: FileSystem, w: World): (r: (Result<Loaded>, FileSystem, seq<Importers.Warning>))
    ensures IsFile(fs, DatasetDir(root, id)) ==> r.0.Err? && r.1 == fs
  {
    var dir := DatasetDir(root, id);
    if IsFile(fs, dir) then (Err(FileExists(Show(dir))), fs, [])
    else
      var (entry, fs1) := GetDatabaseEntry(id, YamlPath(root, id), MakeDir(fs, dir), w);
      match entry
      case Err(e) => (Err(e), fs1, [])
      case Ok(e) => LoadFromEntry(id, root, e, fs1, w)
  }

  /** The part of `load_dataset` after the manifest is read: the structures,
      then the usage notice. */
  function LoadFromEntry(id: string, root: Path, e: DatabaseEntries.Entry, fs: FileSystem, w: World)
    : (r: (Result<Loaded>, FileSystem, seq<Importers.Warning>))
  {
    var (got, fs2, warnings) := FetchStructures(id, root, e, fs, w);
    match got
    case Err(err) => (Err(err), fs2, warnings)
    case Ok(d) =>
      match UsageInformation(e)
      case Err(err) => (Err(err), fs2, warnings)
      case Ok(notice) => (Ok(Loaded(d, notice)), fs2, warnings)
  }

  /** The manifest and structures `LoadDataset` works from. */
  lemma LoadDatasetSteps(id: string, root: Path, fs: FileSystem, w: World)
    requires !IsFile(fs, DatasetDir(root, id))
    ensures var (entry, fs1) := GetDatabaseEntry(id, YamlPath(root, id), MakeDir(fs, DatasetDir(root, id)), w);
            var r := LoadDataset(id, root, fs, w);
            && (entry.Err? ==> r == (Err(entry.error), fs1, []))
            && (entry.Ok? ==>
                  var (got, fs2, warnings) := FetchStructures(id, root, entry.value, fs1, w);
                  && r.1 == fs2 && r.2 == warnings
                  && (r.0.Ok? <==> got.Ok? && UsageInformation(entry.value).Ok?)
                  && (r.0.Ok? ==> r.0.value == Loaded(got.value, UsageInformation(entry.value).value)))
  {
    var (entry, fs1) := GetDatabaseEntry(id, YamlPath(root, id), MakeDir(fs, DatasetDir(root, id)), w);
    if entry.Ok? {
      assert LoadDataset(id, root, fs, w) == LoadFromEntry(id, root, entry.value, fs1, w);
      LoadFromEntrySteps(id, root, entry.value, fs1, w);
    }
  }

  lemma LoadFromEntrySteps(id: string, root: Path, e: DatabaseEntries.Entry, fs: FileSystem, w: World)
    ensures var (got, fs2, warnings) := FetchStructures(id, root, e, fs, w);
            var r := LoadFromEntry(id, root, e, fs, w);
            && r.1 == fs2 && r.2 == warnings
            && (r.0.Ok? <==> got.Ok? && UsageInformation(e).Ok?)
            && (r.0.Ok? ==> r.0.value == Loaded(got.value, UsageInformation(e).value))
  {
    var (got, fs2, warnings) := FetchStructures(id, root, e, fs, w);
    var notice := UsageInformation(e);
    assert LoadFromEntry(id, root, e, fs, w) ==
      if got.Err? then (Err(got.error), fs2, warnings)
      else if notice.Err? then (Err(notice.error), fs2, warnings)
      else (Ok(Loaded(got.value, notice.value)), fs2, warnings);
  }

  /** With a cache file present the importer is never consulted: any
      importer modules give the same outcome. */
  lemma CacheHitSkipsImporter(id: string, root: Path, fs: FileSystem, w: World,
                              importers: string -> Result<Importers.Importer>)
    requires !IsFile(fs, DatasetDir(root, id))
    requires DataPath(root, id) in fs
    ensures LoadDataset(id, root, fs, w) == LoadDataset(id, root, fs, w.(importers := importers))
  {
    var w2 := w.(importers := importers);
    var fs0 := MakeDir(fs, DatasetDir(root, id));
    assert DatasetDir(root, id) != DataPath(root, id) by {
      assert |DataPath(root, id).parts| == |DatasetDir(root, id).parts| + 1;
    }
    EntryIgnoresImporters(id, YamlPath(root, id), fs0, w, importers);
    var (entry, fs1) := GetDatabaseEntry(id, YamlPath(root, id), fs0, w);
    if entry.Ok? {
      assert DataPath(root, id) in fs1;
      FromEntryIgnoresImporters(id, root, entry.value, fs1, w, importers);
    }
  }

  /** With the cache file present, the rest of `load_dataset` never consults
      the importers. */
  lemma FromEntryIgnoresImporters(id: string, root: Path, e: DatabaseEntries.Entry, fs: FileSystem, w: World,
                                  importers: string -> Result<Importers.Importer>)
    requires DataPath(root, id) in fs
    ensures LoadFromEntry(id, root, e, fs, w) == LoadFromEntry(id, root, e, fs, w.(importers := importers))
  {
    CachedIgnoresImporters(id, root, e, fs, w, importers);
  }

  /** Reading the manifest never consults the importers. */
  lemma EntryIgnoresImporters(id: string, yaml: Path, fs: FileSystem, w: World,
                              importers: string -> Result<Importers.Importer>)
    ensures GetDatabaseEntry(id, yaml, fs, w) == GetDatabaseEntry(id, yaml, fs, w.(importers := importers))
  {
    var (fsA, gotA) := FetchIfAbsent(DatabaseEntries.RemoteUrlForYaml(id), yaml, id, fs, w.net);
    assert ReadEntry(yaml, fsA, w) == ReadEntry(yaml, fsA, w.(importers := importers));
  }

  /** With the cache file present, fetching the structures reads it and
      never consults the importers. */
  lemma CachedIgnoresImporters(id: string, root: Path, entry: DatabaseEntries.Entry, fs: FileSystem, w: World,
                               importers: string -> Result<Importers.Importer>)
    requires DataPath(root, id) in fs
    ensures FetchStructures(id, root, entry, fs, w) == FetchStructures(id, root, entry, fs, w.(importers := importers))
  {
    assert LoadCached(DataPath(root, id), fs, w) == LoadCached(DataPath(root, id), fs, w.(importers := importers));
  }

  /** A cache miss runs the importer and writes what it built to the cache;
      loading that file back gives the same structures and description. */
  lemma CacheMissSaves(id: string, root: Path, entry: DatabaseEntries.Entry, fs: FileSystem, w: World)
    requires RoundTrips(w.pickle)
    requires DataPath(root, id) !in fs
    requires ImportDataset(id, root, entry, fs, w).0.Ok?
    ensures var (got, fs1, _) := FetchStructures(id, root, entry, fs, w);
            var d := ImportDataset(id, root, entry, fs, w).0.value;
            && got == Ok(d)
            && LoadCached(DataPath(root, id), fs1, w).0.Ok?
            && AtomsDatasets.Iter(LoadCached(DataPath(root, id), fs1, w).0.value) == d.structures
            && LoadCached(DataPath(root, id), fs1, w).0.value.description == d.description
  {
    var d := ImportDataset(id, root, entry, fs, w).0.value;
    var fs1 := FetchStructures(id, root, entry, fs, w).1;
    var p := AtomsDatasets.SaveInMemory(d.structures, d.description);
    assert fs1[DataPath(root, id)].bytes == w.pickle.dumps(p);
    assert w.pickle.loads(w.pickle.dumps(p)) == Ok(p);
    AtomsDatasets.SaveLoadRoundTrips(d.structures, d.description);
  }

  /** A failed import writes no cache file, so the next call imports again;
      nothing fetched before the failure is removed. */
  lemma FailedImportNotCached(id: string, root: Path, entry: DatabaseEntries.Entry, fs: FileSystem, w: World)
    requires DataPath(root, id) !in fs
    requires ImportDataset(id, root, entry, fs, w).0.Err?
    ensures var fs1 := FetchStructures(id, root, entry, fs, w).1;
            && FetchStructures(id, root, entry, fs, w).0.Err?
            && fs1 == ImportDataset(id, root, entry, fs, w).1
  {
  }
}
