/** Dataset importers of `load_atoms/database/importer.py`: the files an
    importer declares are fetched into a temporary directory when absent,
    every one of them is checked against its checksum with a warning on a
    mismatch, the importer's own `get_structures` reads them, and the
    directory is removed afterwards unless the importer, debug mode or a test
    run asks to keep it.

    The network is a `Network` value (what a URL serves, or the failure
    raised), SHA-256 a `Checksums.Digest`, the file system a
    `Files.FileSystem` value threaded through every call.
 */
module Importers {
  import opened Wrappers
  import opened Files
  import opened Structures
  import Strings
  import Utils
  import Checksums
  import AtomsDatasets
  import DatabaseEntries
  import Processing

  /** What downloading a URL yields: the bytes served, or the error raised. */
  type Network = string -> Result<seq<byte>>

  // ---------------------------------------------------------------------
  // File names from URLs

  /** The text before any trailing slashes. */
  function TrimSlashes(s: string): string {
    if s == [] || s[|s| - 1] != '/' then s else TrimSlashes(s[..|s| - 1])
  }

  /** Trimming keeps a prefix that does not end in `/`, and drops only
      slashes. */
  lemma {:induction false} TrimSlashesDropsSlashes(s: string)
    ensures var r := TrimSlashes(s);
            && |r| <= |s| && r == s[..|r|]
            && (r == [] || r[|r| - 1] != '/')
            && forall i :: |r| <= i < |s| ==> s[i] == '/'
    decreases |s|
  {
    if s != [] && s[|s| - 1] == '/' {
      TrimSlashesDropsSlashes(s[..|s| - 1]);
    }
  }

  /** The text after the last slash. */
  function AfterLastSlash(s: string): (r: string)
    ensures '/' !in r
  {
    if s == [] || s[|s| - 1] == '/' then []
    else AfterLastSlash(s[..|s| - 1]) + [s[|s| - 1]]
  }

  /** What follows the last slash is a suffix, preceded by a slash unless it
      is the whole text. */
  lemma {:induction false} AfterLastSlashIsTail(s: string)
    ensures var r := AfterLastSlash(s);
            && |r| <= |s| && r == s[|s| - |r|..]
            && (|r| < |s| ==> s[|s| - |r| - 1] == '/')
    decreases |s|
  {
    if s != [] && s[|s| - 1] != '/' {
      var init := s[..|s| - 1];
      AfterLastSlashIsTail(init);
      var r0 := AfterLastSlash(init);
      assert AfterLastSlash(s) == r0 + [s[|s| - 1]];
      assert init[|init| - |r0|..] + [s[|s| - 1]] == s[|s| - |r0| - 1..];
      if |r0| < |init| {
        assert s[|s| - |r0| - 2] == init[|init| - |r0| - 1];
      }
    }
  }

  /** `Path(url).name`: the last non-empty `/`-separated component. */
  function UrlName(url: string): (r: string)
    ensures '/' !in r
  {
    AfterLastSlash(TrimSlashes(url))
  }

  /** The name is the end of the URL once trailing slashes are dropped. */
  lemma UrlNameIsSuffix(url: string)
    ensures Strings.EndsWith(TrimSlashes(url), UrlName(url))
  {
    AfterLastSlashIsTail(TrimSlashes(url));
  }

  // ---------------------------------------------------------------------
  // Downloads

  datatype FileDownload = FileDownload(url: string, expectedHash: string, localName: string)

  /** `FileDownload(url, expected_hash, local_name)`: the local name defaults
      to the last component of the URL. */
  function NewFileDownload(url: string, expectedHash: string, localName: Option<string>): (r: FileDownload)
    ensures r.url == url && r.expectedHash == expectedHash
    ensures localName.Some? ==> r.localName == localName.value
    ensures localName.None? ==> '/' !in r.localName && Strings.EndsWith(TrimSlashes(url), r.localName)
  {
    UrlNameIsSuffix(url);
    FileDownload(url, expectedHash, if localName.Some? then localName.value else UrlName(url))
  }

  function Local(dir: Path, f: FileDownload): Path {
    Join(dir, f.localName)
  }

  /** The first loop of `download_all`: every file whose local path does not
      exist is downloaded, in order; the first failure stops the loop and
      leaves what was written before it. */
  function FetchMissing(files: seq<FileDownload>, dir: Path, fs: FileSystem, net: Network): (r: (FileSystem, Option<Error>))
    ensures Extends(fs, r.0)
    ensures r.1.None? ==> forall i :: 0 <= i < |files| ==> Local(dir, files[i]) in r.0
  {
    if files == [] then (fs, None)
    else
      var p := Local(dir, files[0]);
      if p !in fs && net(files[0].url).Err? then (fs, Some(net(files[0].url).error))
      else
        var fs1 := if p in fs then fs else WriteFile(fs, p, net(files[0].url).value);
        var rest := FetchMissing(files[1..], dir, fs1, net);
        assert forall i :: 1 <= i < |files| ==> files[i] == files[1..][i - 1];
        rest
  }

  /** Every path the loop creates is the local path of a listed file whose
      URL served exactly the bytes now stored there. */
  lemma {:induction false} FetchMissingWrites(files: seq<FileDownload>, dir: Path, fs: FileSystem, net: Network, q: Path)
    requires q in FetchMissing(files, dir, fs, net).0 && q !in fs
    ensures exists i :: 0 <= i < |files| && q == Local(dir, files[i]) && net(files[i].url).Ok?
                        && FetchMissing(files, dir, fs, net).0[q] == File(net(files[i].url).value)
  {
    var r := FetchMissing(files, dir, fs, net).0;
    var p := Local(dir, files[0]);
    var fs1 := if p in fs then fs else WriteFile(fs, p, net(files[0].url).value);
    if q in fs1 {
      assert q == p && r[q] == fs1[q];
    } else {
      FetchMissingWrites(files[1..], dir, fs1, net, q);
      var j :| 0 <= j < |files[1..]| && q == Local(dir, files[1..][j]) && net(files[1..][j].url).Ok?
               && r[q] == File(net(files[1..][j].url).value);
      assert files[j + 1] == files[1..][j];
    }
  }

  /** The loop stops only at a listed file that was missing and whose URL
      failed, and it does not stop when every URL serves. */
  lemma {:induction false} FetchMissingFails(files: seq<FileDownload>, dir: Path, fs: FileSystem, net: Network)
    ensures var r := FetchMissing(files, dir, fs, net);
            r.1.Some? ==> exists i :: 0 <= i < |files| && Local(dir, files[i]) !in fs && net(files[i].url) == Err(r.1.value)
    ensures (forall i :: 0 <= i < |files| ==> net(files[i].url).Ok?) ==> FetchMissing(files, dir, fs, net).1.None?
  {
    if files != [] {
      var p := Local(dir, files[0]);
      if !(p !in fs && net(files[0].url).Err?) {
        var fs1 := if p in fs then fs else WriteFile(fs, p, net(files[0].url).value);
        FetchMissingFails(files[1..], dir, fs1, net);
        assert forall i :: 1 <= i < |files| ==> files[i] == files[1..][i - 1];
        var rest := FetchMissing(files[1..], dir, fs1, net);
        if rest.1.Some? {
          var j :| 0 <= j < |files[1..]| && Local(dir, files[1..][j]) !in fs1 && net(files[1..][j].url) == Err(rest.1.value);
          assert files[j + 1] == files[1..][j];
        }
      }
    }
  }

  /** `warnings.warn(...)`: a listed file whose checksum differs, or a warning
      the dataset's constructor emitted. */
  datatype Warning = ChecksumMismatch(path: Path) | DatasetWarning(message: string)

  /** The constructor's warnings among those of a load. */
  function DatasetWarnings(texts: seq<string>): (r: seq<Warning>)
    ensures |r| == |texts|
    ensures forall i :: 0 <= i < |texts| ==> r[i] == DatasetWarning(texts[i])
  {
    seq(|texts|, i requires 0 <= i < |texts| => DatasetWarning(texts[i]))
  }

  /** `w` names a listed file whose contents do not match its checksum. */
  predicate Flagged(files: seq<FileDownload>, dir: Path, fs: FileSystem, digest: Checksums.Digest, w: Warning) {
    exists i :: 0 <= i < |files| && w == ChecksumMismatch(Local(dir, files[i])) && IsFile(fs, Local(dir, files[i]))
                && !Checksums.MatchesChecksum(fs[Local(dir, files[i])].bytes, digest, files[i].expectedHash)
  }

  /** The second loop of `download_all`: every listed file, downloaded now or
      earlier, is compared with its checksum, and a mismatch is a warning
      naming the path. Opening something that is not a file raises, after
      the warnings about the files before it have been emitted: the result
      is the warnings emitted and the error, if any. */
  function CheckAll(files: seq<FileDownload>, dir: Path, fs: FileSystem, digest: Checksums.Digest): (r: (seq<Warning>, Option<Error>))
    ensures r.1.None? <==> forall i :: 0 <= i < |files| ==> IsFile(fs, Local(dir, files[i]))
    ensures r.1.None? ==> forall w :: w in r.0 <==> Flagged(files, dir, fs, digest, w)
    ensures r.1.Some? ==> var k := FirstNonFile(files, dir, fs);
                          && k < |files|
                          && r.1.value == FileNotFound(Show(Local(dir, files[k])))
                          && forall w :: w in r.0 <==> Flagged(files[..k], dir, fs, digest, w)
  {
    CheckLoopMeaning(files, dir, fs, digest);
    CheckLoop(files, dir, fs, digest)
  }

  /** The loop itself: a warning per mismatching file, stopping at the first
      path that is not a file. */
  function CheckLoop(files: seq<FileDownload>, dir: Path, fs: FileSystem, digest: Checksums.Digest): (seq<Warning>, Option<Error>)
    decreases |files|
  {
    if files == [] then ([], None)
    else
      var p := Local(dir, files[0]);
      if !IsFile(fs, p) then ([], Some(FileNotFound(Show(p))))
      else
        var rest := CheckLoop(files[1..], dir, fs, digest);
        var w := if Checksums.MatchesChecksum(fs[p].bytes, digest, files[0].expectedHash) then [] else [ChecksumMismatch(p)];
        (w + rest.0, rest.1)
  }

  lemma CheckLoopMeaning(files: seq<FileDownload>, dir: Path, fs: FileSystem, digest: Checksums.Digest)
    ensures var r := CheckLoop(files, dir, fs, digest);
            && (r.1.None? <==> forall i :: 0 <= i < |files| ==> IsFile(fs, Local(dir, files[i])))
            && (r.1.None? ==> forall w :: w in r.0 <==> Flagged(files, dir, fs, digest, w))
            && (r.1.Some? ==> var k := FirstNonFile(files, dir, fs);
                              && k < |files|
                              && r.1.value == FileNotFound(Show(Local(dir, files[k])))
                              && forall w :: w in r.0 <==> Flagged(files[..k], dir, fs, digest, w))
  {
    CheckLoopError(files, dir, fs, digest);
    CheckLoopWarnings(files, dir, fs, digest);
  }

  /** The loop fails exactly at the first path that is not a file. */
  lemma {:induction false} CheckLoopError(files: seq<FileDownload>, dir: Path, fs: FileSystem, digest: Checksums.Digest)
    ensures var r := CheckLoop(files, dir, fs, digest);
            var k := FirstNonFile(files, dir, fs);
            && (r.1.None? <==> k == |files|)
            && (r.1.Some? ==> k < |files| && r.1.value == FileNotFound(Show(Local(dir, files[k]))))
    decreases |files|
  {
    if files != [] && IsFile(fs, Local(dir, files[0])) {
      CheckLoopError(files[1..], dir, fs, digest);
      FilesAfterFirst(files, dir, fs);
    }
  }

  /** The loop warns about exactly the mismatching files it passed. */
  lemma {:induction false} CheckLoopWarnings(files: seq<FileDownload>, dir: Path, fs: FileSystem, digest: Checksums.Digest)
    ensures var r := CheckLoop(files, dir, fs, digest);
            forall w :: w in r.0 <==> Flagged(files[..FirstNonFile(files, dir, fs)], dir, fs, digest, w)
    decreases |files|
  {
    if files == [] {
      assert files[..0] == [];
    } else if !IsFile(fs, Local(dir, files[0])) {
      assert forall w :: !Flagged(files[..0], dir, fs, digest, w);
    } else {
      CheckLoopWarnings(files[1..], dir, fs, digest);
      var p := Local(dir, files[0]);
      var w := if Checksums.MatchesChecksum(fs[p].bytes, digest, files[0].expectedHash) then [] else [ChecksumMismatch(p)];
      FilesAfterFirst(files, dir, fs);
      var k := FirstNonFile(files[1..], dir, fs);
      if k == |files| - 1 {
        assert files[1..][..k] == files[1..];
        FlaggedConsAll(files, dir, fs, digest, w, CheckLoop(files[1..], dir, fs, digest).0);
        assert files[..k + 1] == files;
      } else {
        FlaggedConsPrefix(files, dir, fs, digest, w, CheckLoop(files[1..], dir, fs, digest).0, k);
      }
    }
  }

  /** Past a first entry that is a file, the scan goes on with the rest. */
  lemma FilesAfterFirst(files: seq<FileDownload>, dir: Path, fs: FileSystem)
    requires files != [] && IsFile(fs, Local(dir, files[0]))
    ensures FirstNonFile(files, dir, fs) == 1 + FirstNonFile(files[1..], dir, fs)
    ensures (forall i :: 0 <= i < |files| ==> IsFile(fs, Local(dir, files[i])))
            <==> (forall i :: 0 <= i < |files[1..]| ==> IsFile(fs, Local(dir, files[1..][i])))
  {
    assert forall i :: 1 <= i < |files| ==> files[i] == files[1..][i - 1];
  }

  lemma FlaggedConsAll(files: seq<FileDownload>, dir: Path, fs: FileSystem, digest: Checksums.Digest,
                       w: seq<Warning>, rest: seq<Warning>)
    requires files != [] && IsFile(fs, Local(dir, files[0]))
    requires w == if Checksums.MatchesChecksum(fs[Local(dir, files[0])].bytes, digest, files[0].expectedHash) then []
                  else [ChecksumMismatch(Local(dir, files[0]))]
    requires forall x :: x in rest <==> Flagged(files[1..], dir, fs, digest, x)
    ensures forall x :: x in w + rest <==> Flagged(files, dir, fs, digest, x)
  {
    assert files[1..|files|] == files[1..] && files[..|files|] == files;
    FlaggedCons(files, dir, fs, digest, w, rest, |files|);
  }

  lemma FlaggedConsPrefix(files: seq<FileDownload>, dir: Path, fs: FileSystem, digest: Checksums.Digest,
                          w: seq<Warning>, rest: seq<Warning>, k: nat)
    requires k < |files| - 1 && IsFile(fs, Local(dir, files[0]))
    requires w == if Checksums.MatchesChecksum(fs[Local(dir, files[0])].bytes, digest, files[0].expectedHash) then []
                  else [ChecksumMismatch(Local(dir, files[0]))]
    requires forall x :: x in rest <==> Flagged(files[1..][..k], dir, fs, digest, x)
    ensures forall x :: x in w + rest <==> Flagged(files[..k + 1], dir, fs, digest, x)
  {
    assert files[1..][..k] == files[1..k + 1];
    FlaggedCons(files, dir, fs, digest, w, rest, k + 1);
  }

  /** The position of the first listed file whose path is not a file, or
      the length of the list when there is none. */
  function FirstNonFile(files: seq<FileDownload>, dir: Path, fs: FileSystem): (k: nat)
    ensures k <= |files|
    ensures forall i :: 0 <= i < k ==> IsFile(fs, Local(dir, files[i]))
    ensures k < |files| ==> !IsFile(fs, Local(dir, files[k]))
    decreases |files|
  {
    if files == [] || !IsFile(fs, Local(dir, files[0])) then 0
    else
      assert forall i :: 1 <= i < |files| ==> files[i] == files[1..][i - 1];
      1 + FirstNonFile(files[1..], dir, fs)
  }

  /** A mismatch found before a listed path that is not a file is still
      warned about: the call raises for the later path, and the warning
      about the earlier file has already been emitted. */
  lemma WarningsBeforeFailureKept(a: FileDownload, b: FileDownload, dir: Path, fs: FileSystem, digest: Checksums.Digest)
    requires IsFile(fs, Local(dir, a)) && !Checksums.MatchesChecksum(fs[Local(dir, a)].bytes, digest, a.expectedHash)
    requires !IsFile(fs, Local(dir, b))
    ensures CheckAll([a, b], dir, fs, digest) == ([ChecksumMismatch(Local(dir, a))], Some(FileNotFound(Show(Local(dir, b)))))
  {
    assert [a, b][1..] == [b];
    assert CheckAll([b], dir, fs, digest) == ([], Some(FileNotFound(Show(Local(dir, b)))));
    assert [ChecksumMismatch(Local(dir, a))] + [] == [ChecksumMismatch(Local(dir, a))];
  }

  /** The warnings about the first file followed by those about the next
      `n - 1` files are the warnings about the first `n` files. */
  lemma FlaggedCons(files: seq<FileDownload>, dir: Path, fs: FileSystem, digest: Checksums.Digest,
                    w: seq<Warning>, rest: seq<Warning>, n: nat)
    requires 1 <= n <= |files|
    requires IsFile(fs, Local(dir, files[0]))
    requires w == if Checksums.MatchesChecksum(fs[Local(dir, files[0])].bytes, digest, files[0].expectedHash) then []
                  else [ChecksumMismatch(Local(dir, files[0]))]
    requires forall x :: x in rest <==> Flagged(files[1..n], dir, fs, digest, x)
    ensures forall x :: x in w + rest <==> Flagged(files[..n], dir, fs, digest, x)
  {
    forall x ensures x in w + rest <==> Flagged(files[..n], dir, fs, digest, x) {
      if x in rest {
        var j :| 0 <= j < |files[1..n]| && x == ChecksumMismatch(Local(dir, files[1..n][j])) && IsFile(fs, Local(dir, files[1..n][j]))
                 && !Checksums.MatchesChecksum(fs[Local(dir, files[1..n][j])].bytes, digest, files[1..n][j].expectedHash);
        assert files[..n][j + 1] == files[1..n][j];
      }
      if Flagged(files[..n], dir, fs, digest, x) {
        var j :| 0 <= j < n && x == ChecksumMismatch(Local(dir, files[..n][j])) && IsFile(fs, Local(dir, files[..n][j]))
                 && !Checksums.MatchesChecksum(fs[Local(dir, files[..n][j])].bytes, digest, files[..n][j].expectedHash);
        if j > 0 {
          assert files[1..n][j - 1] == files[..n][j];
        }
      }
    }
  }

  /** `download_all(files, tmp_dir)`: the file system afterwards, the
      warnings raised, and the error that stopped it, if any. A failed
      download stops it before any checksum is compared. */
  function DownloadAll(files: seq<FileDownload>, dir: Path, fs: FileSystem, net: Network, digest: Checksums.Digest): (r: (FileSystem, seq<Warning>, Option<Error>))
    ensures r.0 == FetchMissing(files, dir, fs, net).0
    ensures FetchMissing(files, dir, fs, net).1.Some? ==> r.1 == [] && r.2 == FetchMissing(files, dir, fs, net).1
    ensures FetchMissing(files, dir, fs, net).1.None? ==> (r.1, r.2) == CheckAll(files, dir, r.0, digest)
  {
    var (fs1, failure) := FetchMissing(files, dir, fs, net);
    if failure.Some? then (fs1, [], failure)
    else
      var (ws, err) := CheckAll(files, dir, fs1, digest);
      (fs1, ws, err)
  }

  /** A mismatching checksum never raises: once every download succeeds and
      no listed path is a directory, the call succeeds, and it warns about
      exactly the listed files, old or new, whose contents do not match. */
  lemma MismatchOnlyWarns(files: seq<FileDownload>, dir: Path, fs: FileSystem, net: Network, digest: Checksums.Digest)
    requires forall i :: 0 <= i < |files| ==> net(files[i].url).Ok?
    requires forall i :: 0 <= i < |files| ==> Local(dir, files[i]) in fs ==> fs[Local(dir, files[i])].File?
    ensures var (fs1, ws, failure) := DownloadAll(files, dir, fs, net, digest);
            && failure.None?
            && forall i :: 0 <= i < |files| ==>
                 (ChecksumMismatch(Local(dir, files[i])) !in ws ==>
                    Checksums.MatchesChecksum(fs1[Local(dir, files[i])].bytes, digest, files[i].expectedHash))
  {
    var (fs1, failure) := FetchMissing(files, dir, fs, net);
    FetchMissingFails(files, dir, fs, net);
    forall i | 0 <= i < |files| ensures IsFile(fs1, Local(dir, files[i])) {
      var p := Local(dir, files[i]);
      if p !in fs {
        FetchMissingWrites(files, dir, fs, net, p);
      }
    }
  }

  // ---------------------------------------------------------------------
  // Importers

  /** An importer: what it downloads, where, whether it cleans up, and its
      `get_structures(tmp_dir)` over the file system. */
  datatype Importer = Importer(
    files: seq<FileDownload>,
    tmpDirname: string,
    cleanup: bool,
    getStructures: (Path, FileSystem) -> Result<seq<Structure>>)

  /** `BaseImporter(files, tmp_dirname, cleanup)`: an absent or empty name
      means "tmp", and cleaning up is the default. */
  function NewImporter(files: seq<FileDownload>, tmpDirname: Option<string>, cleanup: Option<bool>,
                       getStructures: (Path, FileSystem) -> Result<seq<Structure>>): (r: Importer)
    ensures r.files == files
    ensures r.tmpDirname == if tmpDirname.None? || tmpDirname.value == "" then "tmp" else tmpDirname.value
    ensures r.cleanup == (cleanup.None? || cleanup.value)
  {
    Importer(files, if tmpDirname.Some? && tmpDirname.value != "" then tmpDirname.value else "tmp",
             cleanup.GetOr(true), getStructures)
  }

  /** `root / name`, where `pathlib` drops an empty or `.` component. */
  function ChildDir(root: Path, name: string): (r: Path)
    ensures name == "." || name == "" ==> r == root
    ensures name != "." && name != "" ==> Parent(r) == root && Name(r) == name
  {
    if name == "." || name == "" then root else Join(root, name)
  }

  /** The temporary directory is removed afterwards exactly when the
      importer cleans up and neither debug mode nor a test run is on. */
  predicate RemovesTmp(imp: Importer, env: Utils.Env) {
    imp.cleanup && !Utils.DebugMode(env) && !Utils.Testing(env)
  }

  /** `importer.get_dataset(root_dir, database_entry)`: the dataset or the
      error, the file system afterwards, and the warnings: the checksum ones,
      then the constructor's. A failed download stops before the `try`, so
      nothing is removed then. */
  function GetDataset(imp: Importer, root: Path, entry: DatabaseEntries.Entry, env: Utils.Env,
                      fs: FileSystem, net: Network, digest: Checksums.Digest): (r: (Result<AtomsDatasets.Dataset>, FileSystem, seq<Warning>))
    ensures r.0.Ok? ==> r.0.value.InMemory? && r.0.value.description == Some(entry)
  {
    var tmp := ChildDir(root, imp.tmpDirname);
    if IsFile(fs, tmp) then (Err(FileExists(Show(tmp))), fs, [])
    else
      var (fs1, ws, failure) := DownloadAll(imp.files, tmp, MakeDir(fs, tmp), net, digest);
      if failure.Some? then (Err(failure.value), fs1, ws)
      else
        var structures := imp.getStructures(tmp, fs1);
        var fs2 := if RemovesTmp(imp, env) then RemoveTree(fs1, tmp) else fs1;
        if structures.Err? then (Err(structures.error), fs2, ws)
        else
          var (d, built) := AtomsDatasets.NewInMemory(structures.value, Some(entry));
          (Ok(d), fs2, ws + DatasetWarnings(built))
  }

  /** After the downloads, the temporary directory goes exactly when
      `RemovesTmp` holds, whether or not reading the structures failed; the
      dataset holds what `get_structures` produced, described by the entry,
      and a dataset of one structure adds the constructor's warning. */
  lemma GetDatasetCleanup(imp: Importer, root: Path, entry: DatabaseEntries.Entry, env: Utils.Env,
                          fs: FileSystem, net: Network, digest: Checksums.Digest)
    requires !IsFile(fs, ChildDir(root, imp.tmpDirname))
    ensures var tmp := ChildDir(root, imp.tmpDirname);
            var (fs1, ws, failure) := DownloadAll(imp.files, tmp, MakeDir(fs, tmp), net, digest);
            var (r, fs2, warnings) := GetDataset(imp, root, entry, env, fs, net, digest);
            && (r.Err? ==> warnings == ws)
            && (r.Ok? && |AtomsDatasets.Iter(r.value)| != 1 ==> warnings == ws)
            && (r.Ok? && |AtomsDatasets.Iter(r.value)| == 1 ==>
                  warnings == ws + [DatasetWarning(AtomsDatasets.SINGLE_STRUCTURE_WARNING)])
            && (failure.Some? ==> r == Err(failure.value) && fs2 == fs1 && tmp in fs2)
            && (failure.None? && RemovesTmp(imp, env) ==> forall p :: p in fs2 ==> !Below(p, tmp) && p in fs1)
            && (failure.None? && !RemovesTmp(imp, env) ==> fs2 == fs1 && tmp in fs2)
            && (failure.None? ==> (r.Ok? <==> imp.getStructures(tmp, fs1).Ok?))
            && (r.Ok? ==> AtomsDatasets.Iter(r.value) == imp.getStructures(tmp, fs1).value
                          && r.value.description == Some(entry))
  {
    var tmp := ChildDir(root, imp.tmpDirname);
    var fs0 := MakeDir(fs, tmp);
    var (fs1, ws, failure) := DownloadAll(imp.files, tmp, fs0, net, digest);
    assert tmp in fs1 by {
      assert tmp in fs0 && Extends(fs0, FetchMissing(imp.files, tmp, fs0, net).0);
    }
    var (r, fs2, warnings) := GetDataset(imp, root, entry, env, fs, net, digest);
    if failure.None? {
      var structures := imp.getStructures(tmp, fs1);
      assert fs2 == if RemovesTmp(imp, env) then RemoveTree(fs1, tmp) else fs1;
      assert r.Ok? <==> structures.Ok?;
    }
  }

  /** `SingleFileImporter(url, hash)`: one download named after the URL,
      kept in the root directory itself and never cleaned up; it yields
      `process_atoms` of every structure of the file, in order. */
  function SingleFileImporter(url: string, hash: string, read: Path -> Result<seq<Structure>>,
                              processAtoms: Structure -> Structure): (r: Importer)
    ensures |r.files| == 1 && r.files[0] == NewFileDownload(url, hash, None)
    ensures r.tmpDirname == "." && !r.cleanup
  {
    var file := NewFileDownload(url, hash, None);
    NewImporter([file], Some("."), Some(false),
                (dir: Path, fs: FileSystem) =>
                  match read(Join(dir, file.localName))
                  case Err(e) => Err(e)
                  case Ok(ss) => Ok(seq(|ss|, i requires 0 <= i < |ss| => processAtoms(ss[i]))))
  }

  /** An importer that does not clean up never loses a file: what existed
      before is still there, unchanged, whatever happens. */
  lemma NoCleanupKeeps(imp: Importer, root: Path, entry: DatabaseEntries.Entry, env: Utils.Env,
                       fs: FileSystem, net: Network, digest: Checksums.Digest)
    requires !imp.cleanup
    ensures var fs2 := GetDataset(imp, root, entry, env, fs, net, digest).1;
            forall p :: p in fs ==> p in fs2 && fs2[p] == fs[p]
  {
    var tmp := ChildDir(root, imp.tmpDirname);
    if !IsFile(fs, tmp) {
      var fs0 := MakeDir(fs, tmp);
      assert forall p :: p in fs ==> p in fs0 && fs0[p] == fs[p];
      var fs1 := FetchMissing(imp.files, tmp, fs0, net).0;
      assert GetDataset(imp, root, entry, env, fs, net, digest).1 == fs1;
    }
  }

  /** A single-file importer works in the root directory and removes nothing. */
  lemma SingleFileImporterKeeps(url: string, hash: string, read: Path -> Result<seq<Structure>>,
                                processAtoms: Structure -> Structure, root: Path, entry: DatabaseEntries.Entry,
                                env: Utils.Env, fs: FileSystem, net: Network, digest: Checksums.Digest)
    ensures var imp := SingleFileImporter(url, hash, read, processAtoms);
            && ChildDir(root, imp.tmpDirname) == root
            && forall p :: p in fs ==> p in GetDataset(imp, root, entry, env, fs, net, digest).1
                                       && GetDataset(imp, root, entry, env, fs, net, digest).1[p] == fs[p]
  {
    var imp := SingleFileImporter(url, hash, read, processAtoms);
    NoCleanupKeeps(imp, root, entry, env, fs, net, digest);
  }

  /** It yields `process_atoms` of every structure of the file named by the URL. */
  lemma SingleFileImporterReads(url: string, hash: string, read: Path -> Result<seq<Structure>>,
                                processAtoms: Structure -> Structure, root: Path, fs: FileSystem)
    ensures var imp := SingleFileImporter(url, hash, read, processAtoms);
            var r := imp.getStructures(root, fs);
            var file := read(Join(root, UrlName(url)));
            && (r.Ok? <==> file.Ok?)
            && (r.Ok? ==> |r.value| == |file.value| && forall i :: 0 <= i < |file.value| ==> r.value[i] == processAtoms(file.value[i]))
  {
  }

  // ---------------------------------------------------------------------
  // Helpers for importers

  /** `unzip_file(file_path)`: extracts beside the archive into
      `<name>-extracted` unless that path already exists, and returns it.
      `members` is what the archive unpacks to, by relative path. */
  function UnzipFile(fs: FileSystem, file: Path, members: seq<byte> -> Result<map<seq<string>, seq<byte>>>): (r: (Result<Path>, FileSystem))
    ensures r.0.Ok? ==> Parent(r.0.value) == Parent(file) && Name(r.0.value) == Name(file) + "-extracted"
    ensures r.0.Ok? ==> r.0.value in r.1
    ensures Exists(fs, Join(Parent(file), Name(file) + "-extracted")) ==> r == (Ok(Join(Parent(file), Name(file) + "-extracted")), fs)
  {
    var target := Join(Parent(file), Name(file) + "-extracted");
    if Exists(fs, target) then (Ok(target), fs)
    else if !IsFile(fs, file) then (Err(FileNotFound(Show(file))), fs)
    else match members(fs[file].bytes)
      case Err(e) => (Err(e), fs)
      case Ok(m) =>
        (Ok(target), Extracted(MakeDir(fs, target), target, m))
  }

  /** The file system after unpacking `m` into `target`: the directory and
      its members. */
  function Extracted(fs: FileSystem, target: Path, m: map<seq<string>, seq<byte>>): (r: FileSystem)
    requires target in fs
    ensures target in r
    ensures forall rel :: rel in m && rel != [] ==> IsFile(r, Path(target.parts + rel)) && r[Path(target.parts + rel)].bytes == m[rel]
  {
    var members := map q | q in (set rel | rel in m && rel != [] :: Path(target.parts + rel)) :: File(m[q.parts[|target.parts|..]]);
    assert forall rel :: rel in m && rel != [] ==> Path(target.parts + rel).parts[|target.parts|..] == rel;
    fs + members
  }

  /** Unzipping twice is unzipping once: the second call finds the
      directory and returns it without touching anything. */
  lemma UnzipIdempotent(fs: FileSystem, file: Path, members: seq<byte> -> Result<map<seq<string>, seq<byte>>>)
    ensures var (r1, fs1) := UnzipFile(fs, file, members);
            r1.Ok? ==> UnzipFile(fs1, file, members) == (r1, fs1)
  {
  }

  /** `rename(atoms, mapping)`: the same renaming as the `Rename` step. */
  function Rename(s: Structure, mapping: seq<(string, string)>): (r: Structure)
    ensures r.numbers == s.numbers
  {
    Processing.RenameAll(s, mapping)
  }

  /** A name held both per atom and per structure: only the per-atom array
      moves. */
  lemma RenamePrefersArrays(s: Structure, a: string, b: string)
    requires a in s.arrays && a in s.info
    ensures Rename(s, [(a, b)]).info == s.info
    ensures b in Rename(s, [(a, b)]).arrays && Rename(s, [(a, b)]).arrays[b] == s.arrays[a]
  {
    assert [(a, b)][1..] == [];
    assert Rename(s, [(a, b)]) == Processing.RenameAll(Processing.RenameKey(s, a, b), []);
  }
}
