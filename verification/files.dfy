/** The file system the loaders work against, as a value: a map from paths to
    nodes. Paths are lists of components, so `root / name` appends one
    component and `.name` / `.parent` read and drop the last one.
 */
module Files {
  import Strings

  newtype byte = x: int | 0 <= x < 256

  datatype Path = Path(parts: seq<string>)

  /** `root / name` for a name that is a single component; `JoinPath` is the
      general pathlib join. */
  function Join(p: Path, name: string): (r: Path)
    ensures Name(r) == name && Parent(r) == p
  {
    Path(p.parts + [name])
  }

  /** A name pathlib keeps as one component: not empty, not ".", and free
      of "/". */
  predicate IsComponent(name: string) {
    name != "" && name != "." && '/' !in name
  }

  /** `name.split("/")`: the texts between the slashes, in order. */
  function Segments(name: string): (r: seq<string>)
    ensures |r| > 0
    ensures forall i :: 0 <= i < |r| ==> '/' !in r[i]
    ensures Strings.Join("/", r) == name
    ensures '/' !in name ==> r == [name]
  {
    SplitJoins(name);
    Split(name)
  }

  /** The splitting loop, one character at a time. */
  function Split(name: string): (r: seq<string>)
    ensures |r| > 0
    decreases |name|
  {
    if name == "" then [""]
    else
      var rest := Split(name[1..]);
      if name[0] == '/' then [""] + rest
      else [[name[0]] + rest[0]] + rest[1..]
  }

  lemma {:induction false} SplitJoins(name: string)
    ensures forall i :: 0 <= i < |Split(name)| ==> '/' !in Split(name)[i]
    ensures Strings.Join("/", Split(name)) == name
    ensures '/' !in name ==> Split(name) == [name]
    decreases |name|
  {
    if name != "" {
      SplitJoins(name[1..]);
      var rest := Split(name[1..]);
      if name[0] == '/' {
        assert name == "" + "/" + Strings.Join("/", rest);
      } else {
        var r := [[name[0]] + rest[0]] + rest[1..];
        assert Strings.Join("/", r) == [name[0]] + Strings.Join("/", rest) by {
          if |rest| > 1 {
            assert r[1..] == rest[1..];
          }
        }
        assert name == [name[0]] + name[1..];
      }
    }
  }

  /** The segments that pathlib keeps: all but the empty ones and ".". */
  function KeptSegments(segs: seq<string>): (r: seq<string>)
    ensures forall i :: 0 <= i < |r| ==> (r[i] in segs && r[i] != "" && r[i] != ".")
    ensures forall x :: x in segs && x != "" && x != "." ==> x in r
    ensures |r| <= |segs|
  {
    if segs == [] then []
    else if segs[0] == "" || segs[0] == "." then KeptSegments(segs[1..])
    else [segs[0]] + KeptSegments(segs[1..])
  }

  lemma {:induction false} KeptSegmentsAppend(a: seq<string>, b: seq<string>)
    ensures KeptSegments(a + b) == KeptSegments(a) + KeptSegments(b)
    decreases |a|
  {
    if a != [] {
      assert (a + b)[0] == a[0] && (a + b)[1..] == a[1..] + b;
      KeptSegmentsAppend(a[1..], b);
    } else {
      assert a + b == b;
    }
  }

  /** The components pathlib makes of a name: every part between slashes
      except the empty ones and ".". */
  function Components(name: string): (r: seq<string>)
    ensures forall i :: 0 <= i < |r| ==> IsComponent(r[i])
    ensures IsComponent(name) ==> r == [name]
    ensures name == "" || name == "." ==> r == []
  {
    KeptSegments(Segments(name))
  }

  /** Splitting `a + "/" + b` splits `a` and `b` and puts the parts of `b`
      after those of `a`. */
  lemma SegmentsOfSlash(a: string, b: string)
    ensures Segments(a + "/" + b) == Segments(a) + Segments(b)
  {
    SplitOfSlash(a, b);
  }

  lemma {:induction false} SplitOfSlash(a: string, b: string)
    ensures Split(a + "/" + b) == Split(a) + Split(b)
    decreases |a|
  {
    if a == "" {
      assert (a + "/" + b)[1..] == b;
    } else {
      assert (a + "/" + b)[1..] == a[1..] + "/" + b;
      SplitOfSlash(a[1..], b);
    }
  }

  /** `"/x"` names a path from the file-system root. */
  predicate Absolute(name: string) {
    |name| > 0 && name[0] == '/'
  }

  /** `p / name` in pathlib: an absolute name replaces `p`, written with the
      empty first component that `Show` prints as a leading "/"; otherwise
      the name's components are appended to `p`, one level each. */
  function JoinPath(p: Path, name: string): (r: Path)
    ensures IsComponent(name) ==> r == Join(p, name)
    ensures name == "" || name == "." ==> r == p
    ensures !Absolute(name) ==> Below(r, p) && |r.parts| == |p.parts| + |Components(name)|
    ensures !Absolute(name) && Components(name) != [] ==>
              Name(r) == Components(name)[|Components(name)| - 1] && Below(Parent(r), p)
    ensures Absolute(name) ==> |r.parts| == 1 + |Components(name)| && r.parts[0] == ""
    ensures Absolute(name) && Components(name) != [] ==> Show(r) == "/" + Strings.Join("/", Components(name))
  {
    var cs := Components(name);
    if Absolute(name) then FromRoot(cs) else Append(p, cs)
  }

  /** The path from the file-system root through `cs`. */
  function FromRoot(cs: seq<string>): (r: Path)
    ensures |r.parts| == 1 + |cs| && r.parts[0] == ""
    ensures cs != [] ==> Show(r) == "/" + Strings.Join("/", cs)
  {
    assert cs != [] ==> ([""] + cs)[1..] == cs;
    Path([""] + cs)
  }

  /** `p` followed by the components `cs`. */
  function Append(p: Path, cs: seq<string>): (r: Path)
    ensures Below(r, p) && |r.parts| == |p.parts| + |cs|
    ensures cs != [] ==> Name(r) == cs[|cs| - 1] && Below(Parent(r), p)
    ensures |cs| == 1 ==> r == Join(p, cs[0])
    ensures cs == [] ==> r == p
  {
    var r := Path(p.parts + cs);
    assert r.parts[..|p.parts|] == p.parts;
    assert cs != [] ==> Parent(r).parts[..|p.parts|] == p.parts by {
      if cs != [] {
        assert Parent(r).parts == p.parts + cs[..|cs| - 1];
      }
    }
    assert cs == [] ==> r.parts == p.parts;
    r
  }

  /** pathlib's `/` is associative: joining `a + "/" + b` is joining `a`,
      then `b`. */
  lemma JoinPathSlash(p: Path, a: string, b: string)
    requires a != "" && !Absolute(a)
    ensures !Absolute(b) ==> JoinPath(p, a + "/" + b) == JoinPath(JoinPath(p, a), b)
  {
    ComponentsOfSlash(a, b);
    assert (a + "/" + b)[0] == a[0];
    assert (p.parts + Components(a)) + Components(b) == p.parts + (Components(a) + Components(b));
  }

  lemma ComponentsOfSlash(a: string, b: string)
    ensures Components(a + "/" + b) == Components(a) + Components(b)
  {
    SegmentsOfSlash(a, b);
    KeptSegmentsAppend(Segments(a), Segments(b));
  }

  /** `str(path)`: the components joined by `/`. */
  function Show(p: Path): string {
    Strings.Join("/", p.parts)
  }

  /** `path.name`: the last component, or "" for the empty path. */
  function Name(p: Path): string {
    if p.parts == [] then "" else p.parts[|p.parts| - 1]
  }

  /** `path.parent`: the path without its last component. */
  function Parent(p: Path): Path {
    if p.parts == [] then p else Path(p.parts[..|p.parts| - 1])
  }

  datatype Node = File(bytes: seq<byte>) | Dir

  type FileSystem = map<Path, Node>

  predicate Exists(fs: FileSystem, p: Path) {
    p in fs
  }

  predicate IsFile(fs: FileSystem, p: Path) {
    p in fs && fs[p].File?
  }

  /** Every entry of `before` is still in `after`, unchanged. */
  predicate Extends(before: FileSystem, after: FileSystem) {
    forall p :: p in before ==> p in after && after[p] == before[p]
  }

  /** Apart from `p`, `after` holds exactly the entries of `before`. */
  ghost predicate SameElsewhere(before: FileSystem, after: FileSystem, p: Path) {
    forall q :: q != p ==> (q in after <==> q in before) && (q in before ==> after[q] == before[q])
  }

  /** `p` lies at or below `root`. */
  predicate Below(p: Path, root: Path) {
    |root.parts| <= |p.parts| && p.parts[..|root.parts|] == root.parts
  }

  /** `shutil.rmtree(root)`: `root` and everything below it disappear; nothing
      else changes. */
  function RemoveTree(fs: FileSystem, root: Path): (r: FileSystem)
    ensures forall p :: p in r <==> p in fs && !Below(p, root)
    ensures forall p :: p in r ==> r[p] == fs[p]
  {
    map p | p in fs && !Below(p, root) :: fs[p]
  }

  /** `path.write_bytes(data)`. */
  function WriteFile(fs: FileSystem, p: Path, data: seq<byte>): (r: FileSystem)
    ensures IsFile(r, p) && r[p].bytes == data
    ensures SameElsewhere(fs, r, p)
  {
    fs[p := File(data)]
  }

  /** `path.mkdir(parents=True, exist_ok=True)` for a path that is not a file. */
  function MakeDir(fs: FileSystem, p: Path): (r: FileSystem)
    ensures p in r
    ensures SameElsewhere(fs, r, p)
  {
    if p in fs then fs else fs[p := Dir]
  }

  /** The entries directly inside `dir`, as `Path.iterdir` lists them. */
  function Children(fs: FileSystem, dir: Path): (r: set<Path>)
    ensures forall p :: p in r <==> p in fs && |p.parts| == |dir.parts| + 1 && Below(p, dir)
  {
    set p | p in fs && |p.parts| == |dir.parts| + 1 && Below(p, dir)
  }
}
