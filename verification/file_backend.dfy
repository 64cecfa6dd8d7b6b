/** `load_atoms/backend.py`: the older backend. The files a description
    lists live directly under one root; those not there are downloaded from
    `url_root + file` to `root / file`, then every listed file, old or new, is
    compared with its checksum and read, in the description's order. A
    mismatch is an error, not a warning.
 */
module FileBackend {
  import opened Wrappers
  import opened Files
  import Strings
  import opened Structures
  import Checksums
  import Importers
  import StorageBackend

  /** The two attributes `get_structures` reads from a description. */
  datatype Description = Description(files: seq<(string, string)>, urlRoot: string)

  /** How a call ends. A download that fails kills its worker before the
      task is marked done, so the wait for the queue never ends: the call
      neither returns nor raises, and `Blocked` records the file system at
      that point. */
  datatype Outcome = Returned(result: Result<seq<Structure>>, fs: FileSystem) | Blocked(fs: FileSystem)

  const CORRUPTION_TAIL: string :=
    ", but did not match the expected checksum." + "Please move this file to a different location, or delete it."

  const FILE_WORD: string := "File "

  /** `str(CorruptionError(path))`: the constructor wraps its argument,
      whatever it is, in a sentence of its own. */
  function CorruptionText(path: string): (r: string)
    ensures Strings.StartsWith(r, FILE_WORD + path)
  {
    Strings.StartsWithConcat(FILE_WORD + path, " exists" + CORRUPTION_TAIL);
    FILE_WORD + path + " exists" + CORRUPTION_TAIL
  }

  const DETAIL_TAIL: string := "\n" + "If you have made changes to this, please revert them or move/delete the file."

  /** The sentence about `p` that opens the detail. */
  function DetailHead(p: Path): string {
    "The dataset on disk at " + Show(p) + " has been corrupted."
  }

  /** What `check_file_contents` passes to `CorruptionError`: a full
      sentence about the path rather than the path itself. */
  function CorruptionDetail(p: Path): string {
    DetailHead(p) + DETAIL_TAIL
  }

  /** The wrapped text of a corruption found at `p` begins with the
      detail sentence about `p`. */
  lemma CorruptionTextNamesPath(p: Path)
    ensures Strings.StartsWith(CorruptionText(CorruptionDetail(p)), FILE_WORD + DetailHead(p))
  {
    Strings.StartsWithAppend(FILE_WORD, DetailHead(p), DETAIL_TAIL);
    Strings.StartsWithTrans(CorruptionText(CorruptionDetail(p)), FILE_WORD + CorruptionDetail(p), FILE_WORD + DetailHead(p));
  }

  /** `check_file_contents(local_path, expected_file_hash)`: true, or a
      corruption error for a mismatch; a path that is not a file cannot be
      opened. The error's text is the detail sentence wrapped by the
      constructor, so it reads "File The dataset on disk at ...". */
  function CheckFileContents(p: Path, expected: string, fs: FileSystem, digest: Checksums.Digest): (r: Result<bool>)
    ensures r.Ok? ==> r.value
    ensures r.Ok? <==> IsFile(fs, p) && Checksums.MatchesChecksum(fs[p].bytes, digest, expected)
    ensures !IsFile(fs, p) ==> r == Err(FileNotFound(Show(p)))
    ensures IsFile(fs, p) && r.Err? ==> r.error.Corruption? && r.error.path == CorruptionDetail(p)
    ensures IsFile(fs, p) && r.Err? ==>
              Strings.StartsWith(CorruptionText(r.error.path), FILE_WORD + DetailHead(p))
  {
    if !IsFile(fs, p) then Err(FileNotFound(Show(p)))
    else if expected != Checksums.Checksum(fs[p].bytes, digest) then
      CorruptionTextNamesPath(p);
      Err(Corruption(CorruptionDetail(p)))
    else Ok(true)
  }

  /** A file passes the check against its own checksum and fails against
      any other. */
  lemma CheckAgainstOwnChecksum(p: Path, content: seq<byte>, other: string, fs: FileSystem, digest: Checksums.Digest)
    requires fs[p := File(content)] == fs
    requires other != Checksums.Checksum(content, digest)
    ensures CheckFileContents(p, Checksums.Checksum(content, digest), fs, digest) == Ok(true)
    ensures CheckFileContents(p, other, fs, digest).Err? && CheckFileContents(p, other, fs, digest).error.Corruption?
  {
    assert p in fs && fs[p] == File(content);
  }

  /** The downloads for the missing files: `url_root + file` saved to
      `root / file`. */
  function Tasks(missing: seq<(string, string)>, urlRoot: string, root: Path, net: Importers.Network): (r: seq<StorageBackend.Job>)
    ensures |r| == |missing|
    ensures forall i :: 0 <= i < |missing| ==> r[i].0 == Join(root, missing[i].0) && r[i].1 == net(urlRoot + missing[i].0)
  {
    seq(|missing|, i requires 0 <= i < |missing| => (Join(root, missing[i].0), net(urlRoot + missing[i].0)))
  }

  /** `download_all(tasks)`: nothing to do returns at once; otherwise each
      worker creates `root` and writes its file, and one failure blocks. */
  function DownloadAll(jobs: seq<StorageBackend.Job>, root: Path, fs: FileSystem): (r: Outcome)
    ensures r.Returned? ==> r.result == Ok([])
    ensures r.Returned? <==> jobs == [] || (!IsFile(fs, root) && forall i :: 0 <= i < |jobs| ==> jobs[i].1.Ok?)
    ensures jobs == [] ==> r == Returned(Ok([]), fs)
  {
    if jobs == [] then Returned(Ok([]), fs)
    else if IsFile(fs, root) then Blocked(fs)
    else
      var after := StorageBackend.WriteServed(jobs, MakeDir(fs, root));
      if forall i :: 0 <= i < |jobs| ==> jobs[i].1.Ok? then Returned(Ok([]), after) else Blocked(after)
  }

  /** The loading loop: each listed file checked, then read, the structures
      concatenated in order. */
  function LoadAll(files: seq<(string, string)>, root: Path, fs: FileSystem, digest: Checksums.Digest,
                   read: (Path, seq<byte>) -> Result<seq<Structure>>): (r: Result<seq<Structure>>)
    ensures r.Ok? ==> forall i :: 0 <= i < |files| ==>
              IsFile(fs, Join(root, files[i].0)) && Checksums.MatchesChecksum(fs[Join(root, files[i].0)].bytes, digest, files[i].1)
  {
    if files == [] then Ok([])
    else
      var p := Join(root, files[0].0);
      var _ :- CheckFileContents(p, files[0].1, fs, digest);
      var first :- read(p, fs[p].bytes);
      var rest :- LoadAll(files[1..], root, fs, digest, read);
      assert forall i :: 1 <= i < |files| ==> files[i] == files[1..][i - 1];
      Ok(first + rest)
  }

  /** What one listed file contributes: checked, then read. */
  function LoadOne(f: (string, string), root: Path, fs: FileSystem, digest: Checksums.Digest,
                   read: (Path, seq<byte>) -> Result<seq<Structure>>): Result<seq<Structure>> {
    var p := Join(root, f.0);
    var _ :- CheckFileContents(p, f.1, fs, digest);
    read(p, fs[p].bytes)
  }

  /** Loading two lists is loading the first, then the second, with the
      structures kept in that order; one file is one check and one read. */
  lemma {:induction false} LoadAllAppend(a: seq<(string, string)>, b: seq<(string, string)>, root: Path, fs: FileSystem,
                                          digest: Checksums.Digest, read: (Path, seq<byte>) -> Result<seq<Structure>>)
    ensures LoadAll(a + b, root, fs, digest, read) ==
            match LoadAll(a, root, fs, digest, read)
            case Err(e) => Err(e)
            case Ok(x) => match LoadAll(b, root, fs, digest, read) case Err(e) => Err(e) case Ok(y) => Ok(x + y)
    decreases |a|
  {
    if a == [] {
      assert a + b == b;
      if LoadAll(b, root, fs, digest, read).Ok? {
        assert [] + LoadAll(b, root, fs, digest, read).value == LoadAll(b, root, fs, digest, read).value;
      }
    } else {
      assert (a + b)[0] == a[0];
      assert (a + b)[1..] == a[1..] + b;
      LoadAllAppend(a[1..], b, root, fs, digest, read);
      var first := LoadOne(a[0], root, fs, digest, read);
      if first.Ok? && LoadAll(a[1..], root, fs, digest, read).Ok? && LoadAll(b, root, fs, digest, read).Ok? {
        var x := LoadAll(a[1..], root, fs, digest, read).value;
        var y := LoadAll(b, root, fs, digest, read).value;
        assert first.value + (x + y) == (first.value + x) + y;
      }
    }
  }

  lemma LoadAllOne(f: (string, string), root: Path, fs: FileSystem, digest: Checksums.Digest,
                   read: (Path, seq<byte>) -> Result<seq<Structure>>)
    ensures LoadAll([f], root, fs, digest, read) == LoadOne(f, root, fs, digest, read)
  {
    assert [f][1..] == [];
    if LoadOne(f, root, fs, digest, read).Ok? {
      assert LoadOne(f, root, fs, digest, read).value + [] == LoadOne(f, root, fs, digest, read).value;
    }
  }

  /** `get_structures(dataset, root)`, with `defaultDir` standing for the
      default download directory. */
  function GetStructures(desc: Description, root: Option<Path>, defaultDir: Path, fs: FileSystem, net: Importers.Network,
                         digest: Checksums.Digest, read: (Path, seq<byte>) -> Result<seq<Structure>>): (r: Outcome)
    ensures var dir := if root.Some? then root.value else defaultDir;
            var missing := StorageBackend.Missing(desc.files, dir, fs);
            && (r.Blocked? <==> DownloadAll(Tasks(missing, desc.urlRoot, dir, net), dir, fs).Blocked?)
            && (r.Returned? ==> r.result == LoadAll(desc.files, dir, r.fs, digest, read))
  {
    var dir := if root.Some? then root.value else defaultDir;
    var missing := StorageBackend.Missing(desc.files, dir, fs);
    match DownloadAll(Tasks(missing, desc.urlRoot, dir, net), dir, fs)
    case Blocked(after) => Blocked(after)
    case Returned(_, after) => Returned(LoadAll(desc.files, dir, after, digest, read), after)
  }

  /** Without a root the default directory is used. */
  lemma DefaultRoot(desc: Description, defaultDir: Path, fs: FileSystem, net: Importers.Network,
                    digest: Checksums.Digest, read: (Path, seq<byte>) -> Result<seq<Structure>>)
    ensures GetStructures(desc, None, defaultDir, fs, net, digest, read) ==
            GetStructures(desc, Some(defaultDir), defaultDir, fs, net, digest, read)
  {
  }

  /** The files a download writes are absent before it, once the root
      directory exists. */
  lemma TasksLandFresh(missing: seq<(string, string)>, urlRoot: string, root: Path, fs: FileSystem, net: Importers.Network)
    requires forall f :: f in missing ==> Join(root, f.0) !in fs
    ensures forall i :: 0 <= i < |missing| ==> Tasks(missing, urlRoot, root, net)[i].0 !in MakeDir(fs, root)
  {
    forall i | 0 <= i < |missing| ensures Join(root, missing[i].0) !in MakeDir(fs, root) {
      assert missing[i] in missing;
      assert Join(root, missing[i].0) != root by {
        assert |Join(root, missing[i].0).parts| != |root.parts|;
      }
    }
  }

  /** A download that returns wrote every file it was given, provided none
      of them was there before. */
  lemma DownloadAllWrites(jobs: seq<StorageBackend.Job>, root: Path, fs: FileSystem)
    requires forall i :: 0 <= i < |jobs| ==> jobs[i].0 !in MakeDir(fs, root)
    ensures DownloadAll(jobs, root, fs).Returned? ==> forall i :: 0 <= i < |jobs| ==> IsFile(DownloadAll(jobs, root, fs).fs, jobs[i].0)
  {
    if jobs != [] && DownloadAll(jobs, root, fs).Returned? {
      StorageBackend.WriteServedFresh(jobs, MakeDir(fs, root));
    }
  }

  /** A call that returns has fetched every missing file. */
  lemma MissingFilesFetched(desc: Description, root: Path, fs: FileSystem, net: Importers.Network,
                            digest: Checksums.Digest, read: (Path, seq<byte>) -> Result<seq<Structure>>)
    ensures var r := GetStructures(desc, Some(root), root, fs, net, digest, read);
            r.Returned? ==> forall f :: f in StorageBackend.Missing(desc.files, root, fs) ==> IsFile(r.fs, Join(root, f.0))
  {
    var missing := StorageBackend.Missing(desc.files, root, fs);
    var jobs := Tasks(missing, desc.urlRoot, root, net);
    TasksLandFresh(missing, desc.urlRoot, root, fs, net);
    DownloadAllWrites(jobs, root, fs);
    var d := DownloadAll(jobs, root, fs);
    forall f | f in missing && d.Returned? ensures IsFile(d.fs, Join(root, f.0)) {
      var i :| 0 <= i < |missing| && missing[i] == f;
      assert jobs[i].0 == Join(root, f.0);
    }
  }

  /** A missing file whose URL fails blocks the call. */
  lemma FailedDownloadBlocks(desc: Description, root: Path, fs: FileSystem, net: Importers.Network,
                             digest: Checksums.Digest, read: (Path, seq<byte>) -> Result<seq<Structure>>, f: (string, string))
    requires f in StorageBackend.Missing(desc.files, root, fs) && net(desc.urlRoot + f.0).Err?
    ensures GetStructures(desc, Some(root), root, fs, net, digest, read).Blocked?
  {
    var missing := StorageBackend.Missing(desc.files, root, fs);
    var jobs := Tasks(missing, desc.urlRoot, root, net);
    var i :| 0 <= i < |missing| && missing[i] == f;
    assert jobs[i].1.Err?;
  }

  /** A listed file already on disk with the wrong contents is never
      accepted: it is not downloaded again, and the check rejects it. The
      newer storage backend passes the same file through unchecked. */
  lemma CorruptFileRejected(desc: Description, root: Path, fs: FileSystem, net: Importers.Network,
                            digest: Checksums.Digest, read: (Path, seq<byte>) -> Result<seq<Structure>>, f: (string, string))
    requires f in desc.files
    requires IsFile(fs, Join(root, f.0)) && !Checksums.MatchesChecksum(fs[Join(root, f.0)].bytes, digest, f.1)
    ensures var r := GetStructures(desc, Some(root), root, fs, net, digest, read);
            r.Returned? ==> r.result.Err?
  {
    var p := Join(root, f.0);
    var missing := StorageBackend.Missing(desc.files, root, fs);
    var jobs := Tasks(missing, desc.urlRoot, root, net);
    var r := GetStructures(desc, Some(root), root, fs, net, digest, read);
    if r.Returned? && missing != [] {
      var fs1 := MakeDir(fs, root);
      assert p != root by {
        assert |p.parts| != |root.parts|;
      }
      forall i | 0 <= i < |jobs| ensures jobs[i].0 != p {
        assert missing[i] in missing;
      }
      StorageBackend.WriteServedKeeps(jobs, fs1, p);
    }
  }
}
