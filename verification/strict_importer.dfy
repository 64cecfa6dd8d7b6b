/** The newer importers of `load_atoms/database/processing/importer.py`: a
    mapping from URLs to checksums, a processing directory below the root,
    and a `process` that reads the downloaded files. A file is downloaded
    only when its path is absent, and a download whose checksum does not
    match raises, leaving the file where it was written. Files already on
    disk are never checked.
 */
module StrictImporters {
  import opened Wrappers
  import opened Files
  import opened Structures
  import Checksums
  import AtomsDatasets
  import Importers

  type Network = Importers.Network

  /** `tmp_dir / Path(url).name`. */
  function Target(tmp: Path, url: string): (r: Path)
    ensures Parent(r) == tmp && Name(r) == Importers.UrlName(url)
  {
    Join(tmp, Importers.UrlName(url))
  }

  /** `download_file(url, file_path, expected_hash)`: the bytes are written
      first and checked afterwards, so a mismatch raises with the file in
      place. */
  function DownloadFile(url: string, path: Path, hash: string, fs: FileSystem, net: Network,
                        digest: Checksums.Digest): (r: (FileSystem, Result<()>))
    ensures net(url).Err? ==> r == (fs, Err(net(url).error))
    ensures net(url).Ok? ==> IsFile(r.0, path) && r.0[path].bytes == net(url).value
    ensures SameElsewhere(fs, r.0, path)
    ensures r.1.Ok? <==> net(url).Ok? && Checksums.MatchesChecksum(net(url).value, digest, hash)
    ensures r.1.Err? && net(url).Ok? ==> r.1.error.ValueError?
  {
    match net(url)
    case Err(e) => (fs, Err(e))
    case Ok(data) =>
      var fs1 := WriteFile(fs, path, data);
      if Checksums.MatchesChecksum(fs1[path].bytes, digest, hash) then (fs1, Ok(()))
      else (fs1, Err(ValueError("Checksum mismatch for downloaded file: " + Show(path))))
  }

  /** One turn of the download loop: a present target is left alone, an
      absent one is downloaded and checked. */
  function FetchOne(u: (string, string), tmp: Path, fs: FileSystem, net: Network,
                    digest: Checksums.Digest): (r: (FileSystem, Result<()>))
    ensures Extends(fs, r.0)
    ensures r.1.Ok? ==> Target(tmp, u.0) in r.0
    ensures Target(tmp, u.0) in fs ==> r == (fs, Ok(()))
  {
    var p := Target(tmp, u.0);
    if p in fs then (fs, Ok(())) else DownloadFile(u.0, p, u.1, fs, net, digest)
  }

  /** A turn that adds a path added the target, holding bytes that the URL
      served and that match its checksum, unless the turn failed. */
  lemma FetchOneWrites(u: (string, string), tmp: Path, fs: FileSystem, net: Network, digest: Checksums.Digest, q: Path)
    requires q in FetchOne(u, tmp, fs, net, digest).0 && q !in fs
    ensures q == Target(tmp, u.0) && net(u.0).Ok? && FetchOne(u, tmp, fs, net, digest).0[q] == File(net(u.0).value)
    ensures FetchOne(u, tmp, fs, net, digest).1.Ok? ==> Checksums.MatchesChecksum(net(u.0).value, digest, u.1)
  {
  }

  /** The download loop of `get_dataset`: each URL whose target is absent is
      downloaded and checked, in order; the first failure stops the loop. */
  function FetchAll(urls: seq<(string, string)>, tmp: Path, fs: FileSystem, net: Network,
                    digest: Checksums.Digest): (r: (FileSystem, Result<()>))
    ensures Extends(fs, r.0)
  {
    if urls == [] then (fs, Ok(()))
    else
      var first := FetchOne(urls[0], tmp, fs, net, digest);
      if first.1.Err? then first
      else FetchAll(urls[1..], tmp, first.0, net, digest)
  }

  /** A loop that succeeds leaves every listed target present. */
  lemma {:induction false} FetchAllCovers(urls: seq<(string, string)>, tmp: Path, fs: FileSystem, net: Network,
                                          digest: Checksums.Digest)
    requires FetchAll(urls, tmp, fs, net, digest).1.Ok?
    ensures forall i :: 0 <= i < |urls| ==> Target(tmp, urls[i].0) in FetchAll(urls, tmp, fs, net, digest).0
  {
    if urls != [] {
      var first := FetchOne(urls[0], tmp, fs, net, digest);
      var r := FetchAll(urls, tmp, fs, net, digest).0;
      assert r == FetchAll(urls[1..], tmp, first.0, net, digest).0;
      FetchAllCovers(urls[1..], tmp, first.0, net, digest);
      forall i | 0 <= i < |urls| ensures Target(tmp, urls[i].0) in r {
        if i > 0 {
          assert urls[i] == urls[1..][i - 1];
        }
      }
    }
  }

  /** `node` is what a download of `u` wrote to `q`: the served bytes, at
      the URL's target, matching the URL's checksum. */
  predicate FetchedFrom(u: (string, string), tmp: Path, q: Path, node: Node, net: Network, digest: Checksums.Digest) {
    && q == Target(tmp, u.0) && net(u.0).Ok? && node == File(net(u.0).value)
    && Checksums.MatchesChecksum(net(u.0).value, digest, u.1)
  }

  /** On success, every file the loop created holds bytes a listed URL
      served and that match that URL's checksum. */
  lemma {:induction false} FetchAllVerified(urls: seq<(string, string)>, tmp: Path, fs: FileSystem, net: Network,
                                            digest: Checksums.Digest, q: Path)
    requires FetchAll(urls, tmp, fs, net, digest).1.Ok?
    requires q in FetchAll(urls, tmp, fs, net, digest).0 && q !in fs
    ensures exists i :: 0 <= i < |urls| && FetchedFrom(urls[i], tmp, q, FetchAll(urls, tmp, fs, net, digest).0[q], net, digest)
  {
    var r := FetchAll(urls, tmp, fs, net, digest).0;
    var first := FetchOne(urls[0], tmp, fs, net, digest);
    assert r == FetchAll(urls[1..], tmp, first.0, net, digest).0;
    if q in first.0 {
      FetchOneWrites(urls[0], tmp, fs, net, digest, q);
      assert r[q] == first.0[q];
      assert FetchedFrom(urls[0], tmp, q, r[q], net, digest);
    } else {
      FetchAllVerified(urls[1..], tmp, first.0, net, digest, q);
      var j :| 0 <= j < |urls[1..]| && FetchedFrom(urls[1..][j], tmp, q, r[q], net, digest);
      assert urls[j + 1] == urls[1..][j];
    }
  }

  /** The loop fails only at a URL whose target was absent and whose
      download failed or did not match; it succeeds when every URL serves
      bytes matching its checksum. */
  lemma {:induction false} FetchAllFails(urls: seq<(string, string)>, tmp: Path, fs: FileSystem, net: Network,
                                         digest: Checksums.Digest)
    ensures FetchAll(urls, tmp, fs, net, digest).1.Err? ==>
              exists i :: 0 <= i < |urls| && Target(tmp, urls[i].0) !in fs && !Serves(urls[i], net, digest)
    ensures (forall i :: 0 <= i < |urls| ==> Serves(urls[i], net, digest)) ==> FetchAll(urls, tmp, fs, net, digest).1.Ok?
  {
    if urls != [] {
      var first := FetchOne(urls[0], tmp, fs, net, digest);
      if first.1.Ok? {
        FetchAllFails(urls[1..], tmp, first.0, net, digest);
        assert forall i :: 1 <= i < |urls| ==> urls[i] == urls[1..][i - 1];
        if FetchAll(urls, tmp, fs, net, digest).1.Err? {
          var j :| 0 <= j < |urls[1..]| && Target(tmp, urls[1..][j].0) !in first.0 && !Serves(urls[1..][j], net, digest);
          assert urls[j + 1] == urls[1..][j];
        }
      }
    }
  }

  /** The URL serves bytes that match its checksum. */
  predicate Serves(u: (string, string), net: Network, digest: Checksums.Digest) {
    net(u.0).Ok? && Checksums.MatchesChecksum(net(u.0).value, digest, u.1)
  }

  /** `BaseImporter(urls, processing_dir, cleanup)` with its `process`. */
  datatype Importer = Importer(
    urls: seq<(string, string)>,
    processingDir: string,
    cleanup: bool,
    process: (Path, FileSystem) -> Result<seq<Structure>>)

  /** `importer.get_dataset(root_dir)`: the dataset or the error, the file
      system afterwards, and the constructor's warnings. A failed download
      stops before the `try`, so nothing is removed then; otherwise the
      directory goes exactly when the importer cleans up. */
  function GetDataset(imp: Importer, root: Path, fs: FileSystem, net: Network,
                      digest: Checksums.Digest): (r: (Result<AtomsDatasets.Dataset>, FileSystem, seq<string>))
  {
    var tmp := Importers.ChildDir(root, imp.processingDir);
    if IsFile(fs, tmp) then (Err(FileExists(Show(tmp))), fs, [])
    else
      var (fs1, fetched) := FetchAll(imp.urls, tmp, MakeDir(fs, tmp), net, digest);
      if fetched.Err? then (Err(fetched.error), fs1, [])
      else
        var structures := imp.process(tmp, fs1);
        var fs2 := if imp.cleanup then RemoveTree(fs1, tmp) else fs1;
        if structures.Err? then (Err(structures.error), fs2, [])
        else
          var (d, built) := AtomsDatasets.NewInMemory(structures.value, None);
          (Ok(d), fs2, built)
  }

  /** After the downloads, the directory goes exactly when the importer
      cleans up, whether or not processing failed; the dataset holds what
      `process` produced and carries no description, and only a dataset of
      one structure comes with a warning. */
  lemma GetDatasetCleanup(imp: Importer, root: Path, fs: FileSystem, net: Network, digest: Checksums.Digest)
    requires !IsFile(fs, Importers.ChildDir(root, imp.processingDir))
    ensures var tmp := Importers.ChildDir(root, imp.processingDir);
            var (fs1, fetched) := FetchAll(imp.urls, tmp, MakeDir(fs, tmp), net, digest);
            var (r, fs2, warnings) := GetDataset(imp, root, fs, net, digest);
            && (fetched.Err? ==> r == Err(fetched.error) && fs2 == fs1 && tmp in fs2)
            && (fetched.Ok? && imp.cleanup ==> forall p :: p in fs2 ==> !Below(p, tmp) && p in fs1)
            && (fetched.Ok? && !imp.cleanup ==> fs2 == fs1 && tmp in fs2)
            && (fetched.Ok? ==> (r.Ok? <==> imp.process(tmp, fs1).Ok?))
            && (r.Ok? ==> AtomsDatasets.Iter(r.value) == imp.process(tmp, fs1).value && r.value.description.None?)
            && (warnings != [] <==> r.Ok? && |AtomsDatasets.Iter(r.value)| == 1)
  {
    var tmp := Importers.ChildDir(root, imp.processingDir);
    var fs0 := MakeDir(fs, tmp);
    var (fs1, fetched) := FetchAll(imp.urls, tmp, fs0, net, digest);
    assert tmp in fs0 && tmp in fs1;
    var structures := imp.process(tmp, fs1);
    var fs2 := if imp.cleanup then RemoveTree(fs1, tmp) else fs1;
    if fetched.Ok? {
      assert GetDataset(imp, root, fs, net, digest).1 == fs2;
      if structures.Ok? {
        assert GetDataset(imp, root, fs, net, digest).0 == Ok(AtomsDatasets.NewInMemory(structures.value, None).0);
        assert GetDataset(imp, root, fs, net, digest).2 == AtomsDatasets.NewInMemory(structures.value, None).1;
      } else {
        assert GetDataset(imp, root, fs, net, digest).0 == Err(structures.error);
      }
    }
  }

  /** `SingleFileImporter(processing_dir, url, hash)`: one URL, never cleaned
      up; it yields `process_atoms` of every structure of the file named
      after the URL, in order. */
  function SingleFileImporter(processingDir: string, url: string, hash: string, read: Path -> Result<seq<Structure>>,
                              processAtoms: Structure -> Structure): (r: Importer)
    ensures r.urls == [(url, hash)] && r.processingDir == processingDir && !r.cleanup
  {
    Importer([(url, hash)], processingDir, false,
             (tmp: Path, fs: FileSystem) =>
               match read(Target(tmp, url))
               case Err(e) => Err(e)
               case Ok(ss) => Ok(seq(|ss|, i requires 0 <= i < |ss| => processAtoms(ss[i]))))
  }

  /** A single-file importer reads the file named after its URL inside the
      processing directory, one processed structure per structure read. */
  lemma SingleFileImporterReads(processingDir: string, url: string, hash: string, read: Path -> Result<seq<Structure>>,
                                processAtoms: Structure -> Structure, tmp: Path, fs: FileSystem)
    ensures var r := SingleFileImporter(processingDir, url, hash, read, processAtoms).process(tmp, fs);
            && (r.Ok? <==> read(Target(tmp, url)).Ok?)
            && (r.Ok? ==> |r.value| == |read(Target(tmp, url)).value|
                          && forall i :: 0 <= i < |r.value| ==> r.value[i] == processAtoms(read(Target(tmp, url)).value[i]))
  {
  }

  /** Targets already present are neither downloaded nor checked: the loop
      then changes nothing and succeeds whatever the network serves. */
  lemma {:induction false} PresentFilesSkipped(urls: seq<(string, string)>, tmp: Path, fs: FileSystem, net: Network,
                                               digest: Checksums.Digest)
    requires forall i :: 0 <= i < |urls| ==> Target(tmp, urls[i].0) in fs
    ensures FetchAll(urls, tmp, fs, net, digest) == (fs, Ok(()))
  {
    if urls != [] {
      assert forall i :: 1 <= i < |urls| ==> urls[i] == urls[1..][i - 1];
      PresentFilesSkipped(urls[1..], tmp, fs, net, digest);
    }
  }

  /** The importers of `load_atoms/database/importer.py` warn about a listed
      file already present whose contents do not match. */
  lemma OlderImporterWarns(f: Importers.FileDownload, tmp: Path, fs: FileSystem, net: Network, digest: Checksums.Digest)
    requires IsFile(fs, Importers.Local(tmp, f))
    requires !Checksums.MatchesChecksum(fs[Importers.Local(tmp, f)].bytes, digest, f.expectedHash)
    ensures Importers.DownloadAll([f], tmp, fs, net, digest).1 == [Importers.ChecksumMismatch(Importers.Local(tmp, f))]
    ensures Importers.DownloadAll([f], tmp, fs, net, digest).2.None?
  {
    var p := Importers.Local(tmp, f);
    assert [f][1..] == [];
    assert Importers.FetchMissing([f], tmp, fs, net) == (fs, None);
    assert Importers.CheckAll([f][1..], tmp, fs, digest) == ([], None);
    assert Importers.CheckAll([f], tmp, fs, digest) == ([Importers.ChecksumMismatch(p)] + [], None);
    assert [Importers.ChecksumMismatch(p)] + [] == [Importers.ChecksumMismatch(p)];
    var d := Importers.DownloadAll([f], tmp, fs, net, digest);
    assert d.0 == fs;
    assert (d.1, d.2) == Importers.CheckAll([f], tmp, fs, digest);
  }

  /** A corrupt file already in the directory is accepted silently here,
      where the importers of `load_atoms/database/importer.py` warn about it. */
  lemma CorruptFileUnnoticed(url: string, hash: string, tmp: Path, fs: FileSystem, net: Network, digest: Checksums.Digest)
    requires IsFile(fs, Target(tmp, url))
    requires !Checksums.MatchesChecksum(fs[Target(tmp, url)].bytes, digest, hash)
    ensures FetchAll([(url, hash)], tmp, fs, net, digest) == (fs, Ok(()))
    ensures Importers.DownloadAll([Importers.NewFileDownload(url, hash, None)], tmp, fs, net, digest).1
            == [Importers.ChecksumMismatch(Target(tmp, url))]
  {
    PresentFilesSkipped([(url, hash)], tmp, fs, net, digest);
    var f := Importers.NewFileDownload(url, hash, None);
    assert Importers.Local(tmp, f) == Target(tmp, url);
    OlderImporterWarns(f, tmp, fs, net, digest);
  }

  /** A download that does not match raises, and the file stays behind in
      the processing directory. */
  lemma MismatchLeavesFile(imp: Importer, root: Path, fs: FileSystem, net: Network, digest: Checksums.Digest)
    requires |imp.urls| == 1
    requires var tmp := Importers.ChildDir(root, imp.processingDir);
             !IsFile(fs, tmp) && Target(tmp, imp.urls[0].0) !in fs
    requires net(imp.urls[0].0).Ok? && !Checksums.MatchesChecksum(net(imp.urls[0].0).value, digest, imp.urls[0].1)
    ensures var tmp := Importers.ChildDir(root, imp.processingDir);
            var (r1, fs1, _) := GetDataset(imp, root, fs, net, digest);
            && r1.Err? && r1.error.ValueError?
            && IsFile(fs1, Target(tmp, imp.urls[0].0)) && fs1[Target(tmp, imp.urls[0].0)].bytes == net(imp.urls[0].0).value
            && tmp in fs1 && fs1[tmp] == Dir
  {
    var tmp := Importers.ChildDir(root, imp.processingDir);
    var u := imp.urls[0];
    var p := Target(tmp, u.0);
    var fs0 := MakeDir(fs, tmp);
    assert p != tmp by { assert |p.parts| == |tmp.parts| + 1; }
    var first := FetchOne(u, tmp, fs0, net, digest);
    assert first == DownloadFile(u.0, p, u.1, fs0, net, digest);
    assert first.1.Err?;
    assert FetchAll(imp.urls, tmp, fs0, net, digest) == first;
  }

  /** Once every target is present in an existing processing directory, a
      call downloads nothing and succeeds exactly when `process` does. */
  lemma AllPresentOnlyProcesses(imp: Importer, root: Path, fs: FileSystem, net: Network, digest: Checksums.Digest)
    requires var tmp := Importers.ChildDir(root, imp.processingDir);
             tmp in fs && fs[tmp] == Dir && forall i :: 0 <= i < |imp.urls| ==> Target(tmp, imp.urls[i].0) in fs
    ensures GetDataset(imp, root, fs, net, digest).0.Ok? <==> imp.process(Importers.ChildDir(root, imp.processingDir), fs).Ok?
  {
    var tmp := Importers.ChildDir(root, imp.processingDir);
    assert MakeDir(fs, tmp) == fs;
    PresentFilesSkipped(imp.urls, tmp, fs, net, digest);
  }

  /** The next call finds the corrupt file present, skips the check, and
      hands it to `process`: it succeeds exactly when `process` does. */
  lemma RetryAcceptsCorrupt(imp: Importer, root: Path, fs: FileSystem, net: Network, digest: Checksums.Digest)
    requires |imp.urls| == 1
    requires var tmp := Importers.ChildDir(root, imp.processingDir);
             !IsFile(fs, tmp) && Target(tmp, imp.urls[0].0) !in fs
    requires net(imp.urls[0].0).Ok? && !Checksums.MatchesChecksum(net(imp.urls[0].0).value, digest, imp.urls[0].1)
    ensures var tmp := Importers.ChildDir(root, imp.processingDir);
            var fs1 := GetDataset(imp, root, fs, net, digest).1;
            && GetDataset(imp, root, fs, net, digest).0.Err?
            && (GetDataset(imp, root, fs1, net, digest).0.Ok? <==> imp.process(tmp, fs1).Ok?)
  {
    var tmp := Importers.ChildDir(root, imp.processingDir);
    MismatchLeavesFile(imp, root, fs, net, digest);
    var fs1 := GetDataset(imp, root, fs, net, digest).1;
    assert tmp in fs1 && fs1[tmp] == Dir && Target(tmp, imp.urls[0].0) in fs1;
    forall i | 0 <= i < |imp.urls| ensures Target(tmp, imp.urls[i].0) in fs1 {
      assert i == 0;
    }
    AllPresentOnlyProcesses(imp, root, fs1, net, digest);
    assert GetDataset(imp, root, fs1, net, digest).0.Ok? <==> imp.process(tmp, fs1).Ok?;
  }
}
