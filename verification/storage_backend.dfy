/** `load_atoms/backend/__init__.py`: the storage behind `load_atoms.logic`.
    A dataset lives in `root/<id>`. Its manifest `<id>.yaml` is fetched when
    absent; every listed file with nothing at `root/<id>/<file>` is fetched
    from the manifest's base URL; only the files just fetched are compared
    with their checksums, and a mismatch is a warning. The files are then
    read in manifest order.
 */
module StorageBackend {
  import opened Wrappers
  import opened Files
  import opened Values
  import opened Structures
  import Strings
  import Checksums
  import Importers
  import SharedDatasetInfos
  import DatabaseBackend

  type Info = SharedDatasetInfos.Info

  /** Everything beyond the file system: the network, the YAML parser,
      `ase.io.read(path, index=":")` and the hash. */
  datatype World = World(
    net: Importers.Network,
    parseYaml: seq<byte> -> Result<Value>,
    read: (Path, seq<byte>) -> Result<seq<Structure>>,
    digest: Checksums.Digest)

  /** `warnings.warn(...)` for a freshly fetched file whose checksum differs. */
  datatype Warning = CorruptDownload(fileName: string)

  function Message(w: Warning): string {
    "Checksum of " + w.fileName + " does not match the expected value. "
    + "This means that the downloaded dataset may be corrupted."
  }

  /** Each warning names its file: different files give different messages. */
  lemma MessageInjective(a: Warning, b: Warning)
    ensures Message(a) == Message(b) <==> a == b
  {
    if Message(a) == Message(b) {
      var pre := "Checksum of ";
      assert |a.fileName| == |b.fileName|;
      assert a.fileName == Message(a)[|pre|..|pre| + |a.fileName|];
      assert b.fileName == Message(b)[|pre|..|pre| + |b.fileName|];
    }
  }

  // ---------------------------------------------------------------------
  // Paths and URLs

  /** `_sub_folder_for(dataset_id)`. */
  function SubFolder(root: Path, id: string): (r: Path)
    ensures Parent(r) == root && Name(r) == id
  {
    Join(root, id)
  }

  function InfoFile(root: Path, id: string): (r: Path)
    ensures Parent(r) == SubFolder(root, id) && Name(r) == id + ".yaml"
  {
    Join(SubFolder(root, id), id + ".yaml")
  }

  /** The manifest's URL sits directly under the base, not in the dataset's
      own directory where `description_file_url` looks. */
  function InfoUrl(id: string): (r: string)
    ensures Strings.StartsWith(r, SharedDatasetInfos.BASE_REMOTE_URL) && Strings.EndsWith(r, id + ".yaml")
    ensures r != SharedDatasetInfos.DescriptionFileUrl(id)
  {
    SharedDatasetInfos.BASE_REMOTE_URL + id + ".yaml"
  }

  /** Where a download of `url` into the directory `dir` lands:
      `dir / Path(url).name`. */
  function Target(dir: Path, url: string): (r: Path)
    ensures Parent(r) == dir && Name(r) == Importers.UrlName(url)
  {
    Join(dir, Importers.UrlName(url))
  }

  /** The name after a base ending in `/` is the name itself. */
  lemma {:induction false} AfterLastSlashOfSuffix(base: string, name: string)
    requires base == [] || base[|base| - 1] == '/'
    requires '/' !in name
    ensures Importers.AfterLastSlash(base + name) == name
    decreases |name|
  {
    var s := base + name;
    if name == [] {
      assert s == base;
    } else {
      var init := name[..|name| - 1];
      assert s[..|s| - 1] == base + init;
      assert s[|s| - 1] == name[|name| - 1];
      AfterLastSlashOfSuffix(base, init);
      assert init + [name[|name| - 1]] == name;
    }
  }

  /** A file fetched from `base + name` lands at `dir / name` when the base
      ends in `/` and the name is a plain non-empty file name. */
  lemma TargetOfFileUrl(dir: Path, base: string, name: string)
    requires Strings.EndsWith(base, "/")
    requires name != [] && '/' !in name
    ensures Target(dir, base + name) == Join(dir, name)
  {
    var s := base + name;
    assert s[|s| - 1] == name[|name| - 1];
    assert Importers.TrimSlashes(s) == s;
    AfterLastSlashOfSuffix(base, name);
  }

  // ---------------------------------------------------------------------
  // download_missing

  /** `DatasetInfo.from_file(info_file)`: the file opened, parsed and
      validated. */
  function ReadInfo(file: Path, fs: FileSystem, w: World): (r: Result<Info>)
    ensures r.Ok? ==> IsFile(fs, file) && w.parseYaml(fs[file].bytes).Ok?
    ensures r.Ok? ==> r == SharedDatasetInfos.FromData(w.parseYaml(fs[file].bytes).value)
  {
    var loaded := match DatabaseBackend.ReadBytes(fs, file)
                  case Err(e) => Err(e)
                  case Ok(data) => w.parseYaml(data);
    SharedDatasetInfos.FromYamlFile(loaded)
  }

  /** The listed files with nothing at `folder / file`, in manifest order. */
  function Missing(files: seq<(string, string)>, folder: Path, fs: FileSystem): (r: seq<(string, string)>)
    ensures |r| <= |files|
    ensures forall x :: x in r <==> x in files && Join(folder, x.0) !in fs
  {
    if files == [] then []
    else (if Join(folder, files[0].0) !in fs then [files[0]] else []) + Missing(files[1..], folder, fs)
  }

  /** A file already present is never missing, whatever its contents. */
  lemma {:induction false} NothingMissing(files: seq<(string, string)>, folder: Path, fs: FileSystem)
    requires forall i :: 0 <= i < |files| ==> Join(folder, files[i].0) in fs
    ensures Missing(files, folder, fs) == []
  {
    if files != [] {
      assert files[0] in files;
      NothingMissing(files[1..], folder, fs);
    }
  }

  /** `[info.url_root + file for file in missing_files]` as written.
      `url_root` is optional, so once a file is missing a manifest without
      one raises a TypeError. */
  function RemoteUrlsAsWritten(info: Info, missing: seq<(string, string)>): (r: Result<seq<string>>)
    ensures r.Err? <==> info.urlRoot.None? && missing != []
    ensures r.Err? ==> r.error.TypeError?
    ensures r.Ok? ==> |r.value| == |missing|
    ensures r.Ok? && missing != [] ==>
              forall i :: 0 <= i < |missing| ==> r.value[i] == info.urlRoot.value + missing[i].0
  {
    if missing == [] then Ok([])
    else if info.urlRoot.None? then Err(TypeError("unsupported operand type(s) for +: 'NoneType' and 'str'"))
    else Ok(seq(|missing|, i requires 0 <= i < |missing| => info.urlRoot.value + missing[i].0))
  }

  /** The URLs of the missing files under the manifest's base URL, the base
      `remote_file_locations` uses. */
  function RemoteUrls(info: Info, missing: seq<(string, string)>): (r: seq<string>)
    ensures |r| == |missing|
    ensures forall i :: 0 <= i < |r| ==>
              Strings.StartsWith(r[i], SharedDatasetInfos.BaseUrl(info)) && r[i][|SharedDatasetInfos.BaseUrl(info)|..] == missing[i].0
  {
    seq(|missing|, i requires 0 <= i < |missing| => SharedDatasetInfos.BaseUrl(info) + missing[i].0)
  }

  /** The URL of a missing listed file is the one `remote_file_locations`
      gives it, and with a non-empty `url_root` the code as written computes
      the same URLs. */
  lemma RemoteUrlsAgree(info: Info, missing: seq<(string, string)>)
    ensures forall i :: 0 <= i < |missing| && missing[i] in info.files ==>
              (RemoteUrls(info, missing)[i], missing[i].1) in SharedDatasetInfos.RemoteFileLocations(info)
    ensures info.urlRoot.Some? && info.urlRoot.value != "" ==> RemoteUrlsAsWritten(info, missing) == Ok(RemoteUrls(info, missing))
  {
    var locs := SharedDatasetInfos.RemoteFileLocations(info);
    forall i | 0 <= i < |missing| && missing[i] in info.files
      ensures (RemoteUrls(info, missing)[i], missing[i].1) in locs
    {
      var j :| 0 <= j < |info.files| && info.files[j] == missing[i];
      assert locs[j] == (SharedDatasetInfos.BaseUrl(info) + info.files[j].0, info.files[j].1);
    }
    if info.urlRoot.Some? && info.urlRoot.value != "" && missing != [] {
      var a := RemoteUrlsAsWritten(info, missing).value;
      var b := RemoteUrls(info, missing);
      forall i | 0 <= i < |a| ensures a[i] == b[i] {
      }
      assert a == b;
    }
  }

  /** A manifest without `url_root` and one file not yet on disk: the code
      as written fails before downloading anything, where the base URL of
      `remote_file_locations` names the file under the dataset's directory. */
  lemma UrlRootMissingCrashes(folder: Path, fs: FileSystem)
    requires Join(folder, "a.xyz") !in fs
    ensures var info := SharedDatasetInfos.Info("d", "", [("a.xyz", "0123456789abcdef")], None, None, None, None, None, None, None);
            var missing := Missing(info.files, folder, fs);
            && missing == info.files
            && RemoteUrlsAsWritten(info, missing).Err?
            && RemoteUrls(info, missing) == [SharedDatasetInfos.BASE_REMOTE_URL + "d/a.xyz"]
  {
    var info := SharedDatasetInfos.Info("d", "", [("a.xyz", "0123456789abcdef")], None, None, None, None, None, None, None);
    var files := info.files;
    assert Missing(files[1..], folder, fs) == [];
    assert Missing(files, folder, fs) == [files[0]] + [];
    assert [files[0]] + [] == files;
    assert SharedDatasetInfos.BASE_REMOTE_URL + "d" + "/" + "a.xyz" == SharedDatasetInfos.BASE_REMOTE_URL + "d/a.xyz";
  }

  /** One download: where it lands and what the server answered. */
  type Job = (Path, Result<seq<byte>>)

  /** The downloads `download_all` starts, one per URL, in order. */
  function Jobs(urls: seq<string>, dir: Path, net: Importers.Network): (r: seq<Job>)
    ensures |r| == |urls|
    ensures forall i :: 0 <= i < |urls| ==> r[i].0 == Target(dir, urls[i]) && r[i].1 == net(urls[i])
  {
    seq(|urls|, i requires 0 <= i < |urls| => (Target(dir, urls[i]), net(urls[i])))
  }

  /** Each answered download written to its path; a failure writes nothing. */
  function WriteServed(jobs: seq<Job>, fs: FileSystem): (r: FileSystem)
    ensures forall p :: p in fs ==> p in r
    ensures forall p :: IsFile(fs, p) ==> IsFile(r, p)
  {
    if jobs == [] then fs
    else
      var fs1 := if jobs[0].1.Ok? then WriteFile(fs, jobs[0].0, jobs[0].1.value) else fs;
      WriteServed(jobs[1..], fs1)
  }

  /** Every answered download ends up as a file at its path. */
  lemma {:induction false} WriteServedServed(jobs: seq<Job>, fs: FileSystem, i: nat)
    requires i < |jobs| && jobs[i].1.Ok?
    ensures IsFile(WriteServed(jobs, fs), jobs[i].0)
  {
    var fs1 := if jobs[0].1.Ok? then WriteFile(fs, jobs[0].0, jobs[0].1.value) else fs;
    if i == 0 {
      assert IsFile(fs1, jobs[0].0);
    } else {
      assert jobs[i] == jobs[1..][i - 1];
      WriteServedServed(jobs[1..], fs1, i - 1);
    }
  }

  /** A path no download targets keeps what it held. */
  lemma {:induction false} WriteServedKeeps(jobs: seq<Job>, fs: FileSystem, p: Path)
    requires p in fs
    requires forall i :: 0 <= i < |jobs| ==> jobs[i].0 != p
    ensures WriteServed(jobs, fs)[p] == fs[p]
  {
    if jobs != [] {
      var fs1 := if jobs[0].1.Ok? then WriteFile(fs, jobs[0].0, jobs[0].1.value) else fs;
      assert p in fs1 && fs1[p] == fs[p];
      forall i | 0 <= i < |jobs[1..]| ensures jobs[1..][i].0 != p {
        assert jobs[1..][i] == jobs[i + 1];
      }
      WriteServedKeeps(jobs[1..], fs1, p);
    }
  }

  /** Downloads that all land on fresh paths leave the old contents alone,
      and every answered one is then a file. */
  lemma WriteServedFresh(jobs: seq<Job>, fs: FileSystem)
    requires forall i :: 0 <= i < |jobs| ==> jobs[i].0 !in fs
    ensures forall p :: p in fs ==> p in WriteServed(jobs, fs) && WriteServed(jobs, fs)[p] == fs[p]
    ensures forall i :: 0 <= i < |jobs| && jobs[i].1.Ok? ==> IsFile(WriteServed(jobs, fs), jobs[i].0)
  {
    forall p | p in fs ensures WriteServed(jobs, fs)[p] == fs[p] {
      WriteServedKeeps(jobs, fs, p);
    }
    forall i | 0 <= i < |jobs| && jobs[i].1.Ok? ensures IsFile(WriteServed(jobs, fs), jobs[i].0) {
      WriteServedServed(jobs, fs, i);
    }
  }

  /** A path that appears is where some answered download landed. */
  lemma {:induction false} WriteServedAdds(jobs: seq<Job>, fs: FileSystem, p: Path)
    requires p in WriteServed(jobs, fs) && p !in fs
    ensures exists i :: 0 <= i < |jobs| && jobs[i].1.Ok? && jobs[i].0 == p
  {
    assert jobs != [];
    var fs1 := if jobs[0].1.Ok? then WriteFile(fs, jobs[0].0, jobs[0].1.value) else fs;
    if p in fs1 {
      assert jobs[0].1.Ok? && jobs[0].0 == p;
    } else {
      WriteServedAdds(jobs[1..], fs1, p);
      var i :| 0 <= i < |jobs[1..]| && jobs[1..][i].1.Ok? && jobs[1..][i].0 == p;
      assert jobs[1..][i] == jobs[i + 1];
    }
  }

  /** The worker pool of `download_all`: every URL is attempted and each
      success is written to its target. */
  function AttemptAll(urls: seq<string>, dir: Path, fs: FileSystem, net: Importers.Network): FileSystem {
    WriteServed(Jobs(urls, dir, net), fs)
  }

  /** A single URL is one download straight to its target. */
  lemma SingleDownload(url: string, dir: Path, fs: FileSystem, net: Importers.Network)
    ensures net(url).Err? ==> AttemptAll([url], dir, fs, net) == fs
    ensures net(url).Ok? ==> AttemptAll([url], dir, fs, net) == WriteFile(fs, Target(dir, url), net(url).value)
  {
    var jobs := Jobs([url], dir, net);
    assert jobs == [(Target(dir, url), net(url))];
    var fs1 := if net(url).Ok? then WriteFile(fs, Target(dir, url), net(url).value) else fs;
    assert jobs[1..] == [];
    assert WriteServed(jobs[1..], fs1) == fs1;
    assert WriteServed(jobs, fs) == fs1;
  }

  /** The URLs that could not be fetched, in order. */
  function Failures(urls: seq<string>, net: Importers.Network): (r: seq<string>)
    ensures forall u :: u in r <==> u in urls && net(u).Err?
    ensures r == [] <==> forall i :: 0 <= i < |urls| ==> net(urls[i]).Ok?
  {
    if urls == [] then []
    else
      var r := (if net(urls[0]).Err? then [urls[0]] else []) + Failures(urls[1..], net);
      assert forall i :: 1 <= i < |urls| ==> urls[i] == urls[1..][i - 1];
      assert net(urls[0]).Err? ==> urls[0] in r;
      r
  }

  /** What `internet.download_all(urls, directory)` raises. No URL does
      nothing; a single URL is fetched directly and its own error propagates;
      several are all attempted and any failure raises one error listing the
      failed URLs. */
  function DownloadError(urls: seq<string>, net: Importers.Network): (r: Result<()>)
    ensures r.Ok? <==> forall i :: 0 <= i < |urls| ==> net(urls[i]).Ok?
    ensures |urls| == 1 && r.Err? ==> r == Err(net(urls[0]).error)
    ensures |urls| > 1 && r.Err? ==> r == Err(DownloadFailed(Failures(urls, net)))
  {
    if urls == [] then Ok(())
    else if |urls| == 1 then
      if net(urls[0]).Ok? then Ok(()) else Err(net(urls[0]).error)
    else
      var failed := Failures(urls, net);
      if failed == [] then Ok(()) else Err(DownloadFailed(failed))
  }

  /** `internet.download_all(urls, directory)`: every URL is attempted,
      whatever the others do. */
  function DownloadAll(urls: seq<string>, dir: Path, fs: FileSystem, net: Importers.Network): (FileSystem, Result<()>) {
    (AttemptAll(urls, dir, fs, net), DownloadError(urls, net))
  }

  /** The validation loop over the files just fetched: a mismatch warns and
      carries on; a file that is not there stops the loop with the warnings
      issued so far. */
  function Validate(missing: seq<(string, string)>, folder: Path, fs: FileSystem, digest: Checksums.Digest): (r: (seq<Warning>, Result<()>))
    ensures r.1.Ok? <==> forall i :: 0 <= i < |missing| ==> IsFile(fs, Join(folder, missing[i].0))
    ensures |r.0| <= |missing|
    ensures forall x :: x in r.0 ==> exists i :: 0 <= i < |missing| && x == CorruptDownload(missing[i].0)
  {
    if missing == [] then ([], Ok(()))
    else
      var p := Join(folder, missing[0].0);
      if !IsFile(fs, p) then ([], Err(FileNotFound(Show(p))))
      else
        var here := if Checksums.MatchesChecksum(fs[p].bytes, digest, missing[0].1) then [] else [CorruptDownload(missing[0].0)];
        var (rest, res) := Validate(missing[1..], folder, fs, digest);
        assert forall i :: 1 <= i < |missing| ==> missing[i] == missing[1..][i - 1];
        assert forall x :: x in rest ==> exists i :: 0 <= i < |missing| && x == CorruptDownload(missing[i].0) by {
          forall x | x in rest ensures exists i :: 0 <= i < |missing| && x == CorruptDownload(missing[i].0) {
            var k :| 0 <= k < |missing[1..]| && x == CorruptDownload(missing[1..][k].0);
            assert x == CorruptDownload(missing[k + 1].0);
          }
        }
        (here + rest, res)
  }

  /** The file at `folder / name` is there but does not match `hash`. */
  predicate Corrupt(folder: Path, fs: FileSystem, digest: Checksums.Digest, f: (string, string)) {
    IsFile(fs, Join(folder, f.0)) && !Checksums.MatchesChecksum(fs[Join(folder, f.0)].bytes, digest, f.1)
  }

  /** When every fetched file is there, exactly the corrupt ones are warned
      about. */
  lemma {:induction false} ValidateWarnsExactly(missing: seq<(string, string)>, folder: Path, fs: FileSystem, digest: Checksums.Digest)
    requires forall i :: 0 <= i < |missing| ==> IsFile(fs, Join(folder, missing[i].0))
    ensures Validate(missing, folder, fs, digest).1.Ok?
    ensures forall name :: CorruptDownload(name) in Validate(missing, folder, fs, digest).0 <==>
              exists i :: 0 <= i < |missing| && missing[i].0 == name && Corrupt(folder, fs, digest, missing[i])
  {
    if missing != [] {
      var tail := missing[1..];
      assert forall i :: 1 <= i < |missing| ==> missing[i] == tail[i - 1];
      ValidateWarnsExactly(tail, folder, fs, digest);
      forall name
        ensures CorruptDownload(name) in Validate(missing, folder, fs, digest).0 <==>
                exists i :: 0 <= i < |missing| && missing[i].0 == name && Corrupt(folder, fs, digest, missing[i])
      {
        if exists i :: 0 <= i < |missing| && missing[i].0 == name && Corrupt(folder, fs, digest, missing[i]) {
          var i :| 0 <= i < |missing| && missing[i].0 == name && Corrupt(folder, fs, digest, missing[i]);
          if i > 0 {
            assert tail[i - 1].0 == name && Corrupt(folder, fs, digest, tail[i - 1]);
          }
        }
        if CorruptDownload(name) in Validate(tail, folder, fs, digest).0 {
          var k :| 0 <= k < |tail| && tail[k].0 == name && Corrupt(folder, fs, digest, tail[k]);
          assert missing[k + 1] == tail[k];
        }
      }
    }
  }

  /** The manifest step of `download_missing`: the dataset's directory is
      created and the manifest fetched when absent, then read. Nothing but
      those two paths changes. */
  function Prepared(id: string, root: Path, fs: FileSystem, w: World): (r: (FileSystem, Result<Info>))
    requires !IsFile(fs, SubFolder(root, id))
    ensures Extends(fs, r.0)
    ensures forall p :: p in r.0 && p !in fs ==> p == SubFolder(root, id) || p == InfoFile(root, id)
    ensures InfoFile(root, id) !in fs && w.net(InfoUrl(id)).Err? ==> r.1 == Err(UnknownDataset(id))
    ensures r.1.Ok? ==> r.1 == ReadInfo(InfoFile(root, id), r.0, w)
  {
    var fs1 := MakeDir(fs, SubFolder(root, id));
    var (fs2, fetched) := DatabaseBackend.FetchIfAbsent(InfoUrl(id), InfoFile(root, id), id, fs1, w.net);
    assert InfoFile(root, id) != SubFolder(root, id) by {
      assert |InfoFile(root, id).parts| != |SubFolder(root, id).parts|;
    }
    if fetched.Err? then (fs2, fetched.PropagateFailure()) else (fs2, ReadInfo(InfoFile(root, id), fs2, w))
  }

  /** The file step of `download_missing`: the missing files fetched, then
      checked. */
  function FetchFiles(info: Info, folder: Path, fs: FileSystem, w: World): (r: (FileSystem, seq<Warning>, Result<()>))
    ensures var missing := Missing(info.files, folder, fs);
            var d := DownloadAll(RemoteUrls(info, missing), folder, fs, w.net);
            && r.0 == d.0
            && (d.1.Err? ==> r.1 == [] && r.2 == d.1)
            && (d.1.Ok? ==> (r.1, r.2) == Validate(missing, folder, d.0, w.digest))
  {
    var missing := Missing(info.files, folder, fs);
    var (fs1, downloaded) := DownloadAll(RemoteUrls(info, missing), folder, fs, w.net);
    if downloaded.Err? then (fs1, [], downloaded)
    else
      var (warnings, checked) := Validate(missing, folder, fs1, w.digest);
      (fs1, warnings, checked)
  }

  /** `download_missing(dataset_id)`: the file system afterwards, the
      warnings issued, and whether it raised. Nothing on disk disappears and
      no file becomes a directory. */
  function DownloadMissing(id: string, root: Path, fs: FileSystem, w: World): (r: (FileSystem, seq<Warning>, Result<()>))
    ensures IsFile(fs, SubFolder(root, id)) ==> r == (fs, [], Err(FileExists(Show(SubFolder(root, id)))))
    ensures forall p :: p in fs ==> p in r.0
    ensures forall p :: IsFile(fs, p) ==> IsFile(r.0, p)
  {
    var folder := SubFolder(root, id);
    if IsFile(fs, folder) then (fs, [], Err(FileExists(Show(folder))))
    else
      var (fs1, info) := Prepared(id, root, fs, w);
      if info.Err? then (fs1, [], Err(info.error))
      else FetchFiles(info.value, folder, fs1, w)
  }

  /** A warning only ever names a file that was not on disk before the call:
      a file already there is never compared with its checksum. */
  lemma WarningsOnlyForFetched(id: string, root: Path, fs: FileSystem, w: World)
    ensures forall x :: x in DownloadMissing(id, root, fs, w).1 ==> Join(SubFolder(root, id), x.fileName) !in fs
  {
    var folder := SubFolder(root, id);
    if !IsFile(fs, folder) {
      var (fs1, info) := Prepared(id, root, fs, w);
      if info.Ok? {
        FetchFilesWarnOnMissing(info.value, folder, fs1, w);
      }
    }
  }

  /** The file step warns only about files that were missing. */
  lemma FetchFilesWarnOnMissing(info: Info, folder: Path, fs: FileSystem, w: World)
    ensures forall x :: x in FetchFiles(info, folder, fs, w).1 ==> Join(folder, x.fileName) !in fs
  {
    var missing := Missing(info.files, folder, fs);
    forall x | x in FetchFiles(info, folder, fs, w).1 ensures Join(folder, x.fileName) !in fs {
      var i :| 0 <= i < |missing| && x == CorruptDownload(missing[i].0);
      assert missing[i] in missing;
    }
  }

  /** When the manifest can be read and every missing file is served, the
      warnings are exactly the files that were missing and whose fetched
      contents do not match. */
  lemma ServedFilesChecked(id: string, root: Path, fs: FileSystem, w: World)
    requires !IsFile(fs, SubFolder(root, id))
    requires Prepared(id, root, fs, w).1.Ok?
    requires var (fs1, info) := Prepared(id, root, fs, w);
             var missing := Missing(info.value.files, SubFolder(root, id), fs1);
             var d := DownloadAll(RemoteUrls(info.value, missing), SubFolder(root, id), fs1, w.net);
             d.1.Ok? && forall f :: f in missing ==> IsFile(d.0, Join(SubFolder(root, id), f.0))
    ensures var (fs1, info) := Prepared(id, root, fs, w);
            var missing := Missing(info.value.files, SubFolder(root, id), fs1);
            var r := DownloadMissing(id, root, fs, w);
            && r.2.Ok?
            && forall name :: CorruptDownload(name) in r.1 <==>
                 exists i :: 0 <= i < |missing| && missing[i].0 == name && Corrupt(SubFolder(root, id), r.0, w.digest, missing[i])
  {
    var (fs1, info) := Prepared(id, root, fs, w);
    var folder := SubFolder(root, id);
    var missing := Missing(info.value.files, folder, fs1);
    var d := DownloadAll(RemoteUrls(info.value, missing), folder, fs1, w.net);
    forall i | 0 <= i < |missing| ensures IsFile(d.0, Join(folder, missing[i].0)) {
      assert missing[i] in missing;
    }
    ValidateWarnsExactly(missing, folder, d.0, w.digest);
  }

  /** A dataset whose directory, manifest and listed files are all on disk
      is left as it is and raises nothing: no download happens and no file
      is compared with its checksum, so a corrupt file goes unnoticed. */
  lemma PresentDatasetUntouched(id: string, root: Path, fs: FileSystem, w: World)
    requires fs[SubFolder(root, id) := Dir] == fs
    requires ReadInfo(InfoFile(root, id), fs, w).Ok?
    requires forall f :: f in ReadInfo(InfoFile(root, id), fs, w).value.files ==> Join(SubFolder(root, id), f.0) in fs
    ensures DownloadMissing(id, root, fs, w) == (fs, [], Ok(()))
  {
    var folder := SubFolder(root, id);
    assert folder in fs && fs[folder] == Dir;
    var info := ReadInfo(InfoFile(root, id), fs, w).value;
    assert MakeDir(fs, folder) == fs;
    forall i | 0 <= i < |info.files| ensures Join(folder, info.files[i].0) in fs {
      assert info.files[i] in info.files;
    }
    NothingMissing(info.files, folder, fs);
    assert RemoteUrls(info, []) == [];
  }

  /** With a base ending in `/` and plain file names, every download lands on
      the missing file's own path, so nothing already on disk is overwritten
      and, when every download succeeds, each missing file is then there. */
  lemma DownloadsLandOnMissing(info: Info, folder: Path, fs: FileSystem, net: Importers.Network)
    requires Strings.EndsWith(SharedDatasetInfos.BaseUrl(info), "/")
    requires forall f :: f in info.files ==> f.0 != [] && '/' !in f.0
    ensures var missing := Missing(info.files, folder, fs);
            var d := DownloadAll(RemoteUrls(info, missing), folder, fs, net);
            && (forall p :: p in fs ==> p in d.0 && d.0[p] == fs[p])
            && (d.1.Ok? ==> forall f :: f in missing ==> IsFile(d.0, Join(folder, f.0)))
  {
    var missing := Missing(info.files, folder, fs);
    var urls := RemoteUrls(info, missing);
    var jobs := Jobs(urls, folder, net);
    MissingTargets(info, folder, fs, missing, jobs, net);
    WriteServedFresh(jobs, fs);
    var after := WriteServed(jobs, fs);
    assert DownloadAll(urls, folder, fs, net).0 == after;
    if DownloadError(urls, net).Ok? {
      forall f | f in missing ensures IsFile(after, Join(folder, f.0)) {
        var i :| 0 <= i < |missing| && missing[i] == f;
        assert jobs[i].1 == net(urls[i]) && net(urls[i]).Ok?;
        assert IsFile(after, jobs[i].0);
      }
    }
  }

  /** The download of each missing file lands on that file's own path,
      which is not on disk. */
  lemma MissingTargets(info: Info, folder: Path, fs: FileSystem, missing: seq<(string, string)>, jobs: seq<Job>, net: Importers.Network)
    requires Strings.EndsWith(SharedDatasetInfos.BaseUrl(info), "/")
    requires forall f :: f in info.files ==> f.0 != [] && '/' !in f.0
    requires missing == Missing(info.files, folder, fs)
    requires jobs == Jobs(RemoteUrls(info, missing), folder, net)
    ensures |jobs| == |missing|
    ensures forall i :: 0 <= i < |jobs| ==> jobs[i].0 == Join(folder, missing[i].0) && jobs[i].0 !in fs
  {
    var urls := RemoteUrls(info, missing);
    var base := SharedDatasetInfos.BaseUrl(info);
    forall i | 0 <= i < |jobs| ensures jobs[i].0 == Join(folder, missing[i].0) && jobs[i].0 !in fs {
      assert missing[i] in missing;
      assert urls[i] == base + missing[i].0;
      TargetOfFileUrl(folder, base, missing[i].0);
      assert jobs[i].0 == Target(folder, urls[i]);
    }
  }



  // ---------------------------------------------------------------------
  // load_dataset and get_structures_for

  /** What `read` makes of one file on disk. */
  function ReadOne(f: (string, string), folder: Path, fs: FileSystem, w: World): (r: Result<seq<Structure>>)
    ensures r.Ok? ==> IsFile(fs, Join(folder, f.0))
  {
    var p := Join(folder, f.0);
    var data :- DatabaseBackend.ReadBytes(fs, p);
    w.read(p, data)
  }

  /** Each listed file read in turn, the structures concatenated. */
  function ReadAll(files: seq<(string, string)>, folder: Path, fs: FileSystem, w: World): (r: Result<seq<Structure>>)
    ensures r.Ok? ==> forall i :: 0 <= i < |files| ==> IsFile(fs, Join(folder, files[i].0))
  {
    if files == [] then Ok([])
    else
      var first :- ReadOne(files[0], folder, fs, w);
      var rest :- ReadAll(files[1..], folder, fs, w);
      assert forall i :: 1 <= i < |files| ==> files[i] == files[1..][i - 1];
      Ok(first + rest)
  }

  /** Reading one file is reading it with `read`; reading two lists is
      reading the first, then the second, the structures kept in that order. */
  lemma {:induction false} ReadAllAppend(a: seq<(string, string)>, b: seq<(string, string)>, folder: Path, fs: FileSystem, w: World)
    ensures ReadAll([], folder, fs, w) == Ok([])
    ensures ReadAll(a + b, folder, fs, w) ==
            match ReadAll(a, folder, fs, w)
            case Err(e) => Err(e)
            case Ok(x) => match ReadAll(b, folder, fs, w) case Err(e) => Err(e) case Ok(y) => Ok(x + y)
    decreases |a|
  {
    if a == [] {
      assert a + b == b;
      if ReadAll(b, folder, fs, w).Ok? {
        assert [] + ReadAll(b, folder, fs, w).value == ReadAll(b, folder, fs, w).value;
      }
    } else {
      assert (a + b)[0] == a[0];
      assert (a + b)[1..] == a[1..] + b;
      ReadAllAppend(a[1..], b, folder, fs, w);
      var first := ReadOne(a[0], folder, fs, w);
      if first.Ok? && ReadAll(a[1..], folder, fs, w).Ok? && ReadAll(b, folder, fs, w).Ok? {
        var x := ReadAll(a[1..], folder, fs, w).value;
        var y := ReadAll(b, folder, fs, w).value;
        assert first.value + (x + y) == (first.value + x) + y;
      }
    }
  }

  lemma ReadAllOne(f: (string, string), folder: Path, fs: FileSystem, w: World)
    ensures ReadAll([f], folder, fs, w) == ReadOne(f, folder, fs, w)
  {
    assert [f][1..] == [];
    if ReadOne(f, folder, fs, w).Ok? {
      assert ReadOne(f, folder, fs, w).value + [] == ReadOne(f, folder, fs, w).value;
    }
  }

  /** `load_dataset(dataset_id)`: the manifest on disk, then every listed
      file read in manifest order. */
  function LoadDataset(id: string, root: Path, fs: FileSystem, w: World): (r: Result<(seq<Structure>, Info)>)
    ensures r.Ok? ==> ReadInfo(InfoFile(root, id), fs, w) == Ok(r.value.1)
    ensures r.Ok? ==> ReadAll(r.value.1.files, SubFolder(root, id), fs, w) == Ok(r.value.0)
    ensures ReadInfo(InfoFile(root, id), fs, w).Err? ==> r.Err?
  {
    var info :- ReadInfo(InfoFile(root, id), fs, w);
    var ss :- ReadAll(info.files, SubFolder(root, id), fs, w);
    Ok((ss, info))
  }

  /** `get_structures_for(dataset_id, root)`: the result, the warnings
      issued, and the file system afterwards. */
  function GetStructuresFor(id: string, root: Path, fs: FileSystem, w: World): (r: (Result<(seq<Structure>, Info)>, seq<Warning>, FileSystem))
    ensures r.1 == DownloadMissing(id, root, fs, w).1 && r.2 == DownloadMissing(id, root, fs, w).0
    ensures DownloadMissing(id, root, fs, w).2.Err? ==> r.0 == Err(DownloadMissing(id, root, fs, w).2.error)
    ensures DownloadMissing(id, root, fs, w).2.Ok? ==> r.0 == LoadDataset(id, root, r.2, w)
    ensures r.0.Ok? ==> forall f :: f in r.0.value.1.files ==> IsFile(r.2, Join(SubFolder(root, id), f.0))
  {
    var (fs1, warnings, downloaded) := DownloadMissing(id, root, fs, w);
    if downloaded.Err? then (Err(downloaded.error), warnings, fs1)
    else
      var loaded := LoadDataset(id, root, fs1, w);
      assert loaded.Ok? ==> forall i :: 0 <= i < |loaded.value.1.files| ==> IsFile(fs1, Join(SubFolder(root, id), loaded.value.1.files[i].0));
      (loaded, warnings, fs1)
  }

  /** A dataset already fully on disk is read from disk: the result does not
      depend on the network, and the files are read in manifest order. */
  lemma PresentDatasetRead(id: string, root: Path, fs: FileSystem, w: World, a: (string, string), b: (string, string))
    requires fs[SubFolder(root, id) := Dir] == fs
    requires ReadInfo(InfoFile(root, id), fs, w).Ok? && ReadInfo(InfoFile(root, id), fs, w).value.files == [a, b]
    requires Join(SubFolder(root, id), a.0) in fs && Join(SubFolder(root, id), b.0) in fs
    ensures var r := GetStructuresFor(id, root, fs, w);
            && r.1 == [] && r.2 == fs
            && (r.0.Ok? <==> ReadOne(a, SubFolder(root, id), fs, w).Ok? && ReadOne(b, SubFolder(root, id), fs, w).Ok?)
            && (r.0.Ok? ==> r.0.value.0 == ReadOne(a, SubFolder(root, id), fs, w).value + ReadOne(b, SubFolder(root, id), fs, w).value)
  {
    PresentDatasetUntouched(id, root, fs, w);
    var folder := SubFolder(root, id);
    assert [a, b] == [a] + [b];
    ReadAllAppend([a], [b], folder, fs, w);
    ReadAllOne(a, folder, fs, w);
    ReadAllOne(b, folder, fs, w);
  }
}
