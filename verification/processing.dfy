/** The processing pipeline of `load_atoms.database.processing`: steps that
    turn a download directory into a list of structures, the registry that
    names them, `parse_steps`, which builds a `Chain` from a manifest's YAML
    list, and the built-in steps.

    Everything outside the pipeline is a `World` value: the names a
    directory lists, the names a glob pattern matches, `ase.io.read`,
    archive extraction and the importable custom-processing modules.
 */
module Processing {
  import opened Wrappers
  import opened Values
  import opened Structures
  import opened Seqs
  import Strings
  import Files

  type Path = Files.Path

  /** What flows between steps: a path or a list of structures. */
  datatype Data = PathData(path: Path) | AtomsData(structures: seq<Structure>)

  /** A custom processing module's `process(path)`. */
  type Process = Path -> Result<seq<Structure>>

  datatype World = World(
    // the names `root.iterdir()` yields, in the order it yields them
    entries: Path -> seq<string>,
    // the paths below `root`, relative to it, that `root.glob(pattern)` matches
    glob: (Path, string) -> set<string>,
    // `ase.io.read(path, index=":", **kwargs)`
    read: (Path, seq<(string, Value)>) -> Result<seq<Structure>>,
    // `shutil.unpack_archive(archive, extract_dir=target)`
    unpack: (Path, Path) -> Result<()>,
    // `importlib.import_module(name).process`, for the modules that exist
    modules: string -> Option<Process>,
    // `yaml.safe_load(text)` for a text whose top level is a block sequence:
    // its items, or the error the YAML parser raises
    safeLoad: string -> Result<seq<Value>>)

  datatype Step =
    | UnZip(archive: Option<string>)
    | SelectFile(file: Value)
    | ForEachFile(chain: seq<Step>, files: Option<seq<string>>, pattern: Option<string>)
    | ReadASE(kwargs: seq<(string, Value)>)
    | Custom(id: string)
    | Rename(mapping: seq<(string, string)>)

  // ---------------------------------------------------------------------
  // The registry

  /** The step classes in the order the module declares them. */
  const DECLARED: seq<string> := ["UnZip", "SelectFile", "ForEachFile", "ReadASE", "Custom", "Rename"]

  /** `register_step(cls)`: records the class under its name (a dictionary
      keeps the position of a name it already holds) and returns the class,
      so the decorated name stays bound to it. */
  function RegisterStep(registry: seq<string>, name: string): (r: (seq<string>, Option<string>))
    ensures r.1 == Some(name)
    ensures forall n :: n in r.0 <==> n in registry || n == name
    ensures Distinct(registry) ==> Distinct(r.0)
  {
    (if name in registry then registry else registry + [name], Some(name))
  }

  /** Registering classes one after another. */
  function RegisterAll(registry: seq<string>, names: seq<string>): (r: seq<string>)
    ensures forall n :: n in r <==> n in registry || n in names
    decreases names
  {
    if names == [] then registry else RegisterAll(RegisterStep(registry, names[0]).0, names[1..])
  }

  /** Distinct names are listed in registration order. */
  lemma {:induction false} RegisterAllDistinct(registry: seq<string>, names: seq<string>)
    requires Distinct(registry + names)
    ensures RegisterAll(registry, names) == registry + names
    decreases names
  {
    if names != [] {
      assert (registry + names)[|registry|] == names[0];
      assert names[0] !in registry by {
        forall j | 0 <= j < |registry| ensures registry[j] != names[0] {
          assert (registry + names)[j] == registry[j];
        }
      }
      assert registry + [names[0]] + names[1..] == registry + names;
      RegisterAllDistinct(registry + [names[0]], names[1..]);
    }
  }

  /** `list(_common_steps)` once the module is imported is the declaration
      order, and every decorated name stays bound to its class. */
  lemma RegisteredSteps()
    ensures RegisterAll([], DECLARED) == DECLARED
    ensures forall n :: n in DECLARED ==> RegisterStep([], n).1 == Some(n)
  {
    assert [] + DECLARED == DECLARED;
    RegisterAllDistinct([], DECLARED);
  }

  /** `get_step_type(name)`: the registered class, else a ValueError naming
      the step and listing the registered ones. */
  function GetStepType(name: string): (r: Result<string>)
    ensures r.Ok? <==> name in DECLARED
    ensures r.Ok? ==> r.value == name
    ensures r.Err? ==> r.error.ValueError? && Strings.StartsWith(r.error.msg, "Unknown step: " + name)
  {
    if name in DECLARED then Ok(name)
    else
      var msg := "Unknown step: " + name + ". " + "Expected one of " + StrListRepr(DECLARED) + ".";
      assert msg[..|"Unknown step: " + name|] == "Unknown step: " + name;
      Err(ValueError(msg))
  }

  // ---------------------------------------------------------------------
  // Building steps: `cls(**kwargs)`

  /** Python's keyword binding rejects a keyword the constructor does not take. */
  function OnlyKeywords(cls: string, kwargs: seq<(string, Value)>, allowed: set<string>): (r: Result<()>)
    ensures r.Ok? <==> forall i :: 0 <= i < |kwargs| ==> kwargs[i].0 in allowed
  {
    if forall i :: 0 <= i < |kwargs| ==> kwargs[i].0 in allowed then Ok(())
    else Err(TypeError(cls + "() got an unexpected keyword argument"))
  }

  /** The position of the keyword `key`, if given. */
  function Find(kwargs: seq<(string, Value)>, key: string): (r: Option<nat>)
    ensures r.Some? ==> r.value < |kwargs| && kwargs[r.value].0 == key
    ensures r.None? <==> forall i :: 0 <= i < |kwargs| ==> kwargs[i].0 != key
  {
    if kwargs == [] then None
    else if kwargs[0].0 == key then Some(0)
    else match Find(kwargs[1..], key)
      case None => None
      case Some(i) => Some(i + 1)
  }

  /** A required argument, else the TypeError Python raises for it. */
  function Required(cls: string, kwargs: seq<(string, Value)>, key: string): (r: Result<nat>)
    ensures r.Ok? <==> Find(kwargs, key).Some?
    ensures r.Ok? ==> r.value == Find(kwargs, key).value
  {
    match Find(kwargs, key)
    case None => Err(TypeError(cls + "() missing 1 required positional argument: '" + key + "'"))
    case Some(i) => Ok(i)
  }

  function AsStr(v: Value): (r: Result<string>)
    ensures r.Ok? <==> v.VStr?
    ensures r.Ok? ==> r.value == v.s
  {
    if v.VStr? then Ok(v.s) else Err(TypeError("expected str, got " + Repr(v)))
  }

  /** An optional string argument: absent and `None` are the default. */
  function OptionalStr(kwargs: seq<(string, Value)>, key: string): (r: Result<Option<string>>)
    ensures r.Ok? && r.value.Some? <==> Find(kwargs, key).Some? && kwargs[Find(kwargs, key).value].1.VStr?
    ensures r.Ok? && r.value.Some? ==> r.value.value == kwargs[Find(kwargs, key).value].1.s
    ensures r.Err? <==> Find(kwargs, key).Some? && !kwargs[Find(kwargs, key).value].1.VStr? && !kwargs[Find(kwargs, key).value].1.VNone?
  {
    match Find(kwargs, key)
    case None => Ok(None)
    case Some(i) =>
      if kwargs[i].1.VNone? then Ok(None)
      else var s :- AsStr(kwargs[i].1); Ok(Some(s))
  }

  function AsStrList(v: Value): (r: Result<seq<string>>)
    ensures r.Ok? <==> v.VList? && forall i :: 0 <= i < |v.items| ==> v.items[i].VStr?
    ensures r.Ok? ==> |r.value| == |v.items| && forall i :: 0 <= i < |v.items| ==> r.value[i] == v.items[i].s
  {
    if v.VList? && forall i :: 0 <= i < |v.items| ==> v.items[i].VStr? then
      Ok(seq(|v.items|, i requires 0 <= i < |v.items| => v.items[i].s))
    else Err(TypeError("expected a list of str, got " + Repr(v)))
  }

  function OptionalStrList(kwargs: seq<(string, Value)>, key: string): (r: Result<Option<seq<string>>>)
    ensures Find(kwargs, key).None? ==> r == Ok(None)
  {
    match Find(kwargs, key)
    case None => Ok(None)
    case Some(i) =>
      if kwargs[i].1.VNone? then Ok(None)
      else var xs :- AsStrList(kwargs[i].1); Ok(Some(xs))
  }

  /** The keyword arguments of `Rename(**name_mapping)`, old name to new name. */
  function NameMapping(kwargs: seq<(string, Value)>): (r: Result<seq<(string, string)>>)
    ensures r.Ok? <==> forall i :: 0 <= i < |kwargs| ==> kwargs[i].1.VStr?
    ensures r.Ok? ==> |r.value| == |kwargs| && forall i :: 0 <= i < |kwargs| ==> r.value[i] == (kwargs[i].0, kwargs[i].1.s)
  {
    if kwargs == [] then Ok([])
    else
      var n :- AsStr(kwargs[0].1);
      var rest :- NameMapping(kwargs[1..]);
      assert forall i :: 1 <= i < |kwargs| ==> kwargs[i] == kwargs[1..][i - 1];
      Ok([(kwargs[0].0, n)] + rest)
  }

  /** The module `Custom(id)` imports. */
  function CustomModule(id: string): string {
    "load_atoms.database.processing." + id
  }

  /** `get_step_type(name)(**kwargs)` for a registered name. `ForEachFile`
      parses its own steps, and `Custom` imports its module, when built. */
  function Construct(name: string, kwargs: seq<(string, Value)>, world: World): (r: Result<Step>)
    requires name in DECLARED
    ensures r.Ok? ==> match r.value
      case UnZip(_) => name == "UnZip"
      case SelectFile(_) => name == "SelectFile"
      case ForEachFile(_, _, _) => name == "ForEachFile"
      case ReadASE(kw) => name == "ReadASE" && kw == kwargs
      case Custom(id) => name == "Custom" && world.modules(CustomModule(id)).Some?
      case Rename(_) => name == "Rename"
    decreases VDict(kwargs)
  {
    if name == "UnZip" then
      var _ :- OnlyKeywords(name, kwargs, {"file"});
      var file :- OptionalStr(kwargs, "file");
      Ok(UnZip(file))
    else if name == "SelectFile" then
      var _ :- OnlyKeywords(name, kwargs, {"file"});
      var i :- Required(name, kwargs, "file");
      Ok(SelectFile(kwargs[i].1))
    else if name == "ForEachFile" then
      var _ :- OnlyKeywords(name, kwargs, {"steps", "files", "pattern"});
      var i :- Required(name, kwargs, "steps");
      var raw := kwargs[i].1;
      assert kwargs[i] in kwargs;
      var chain :- if raw.VList? then ParseSteps(raw.items, world) else ParseNames(IteratedNames(raw));
      var files :- OptionalStrList(kwargs, "files");
      var pattern :- OptionalStr(kwargs, "pattern");
      Ok(ForEachFile(chain, files, pattern))
    else if name == "ReadASE" then
      Ok(ReadASE(kwargs))
    else if name == "Custom" then
      var _ :- OnlyKeywords(name, kwargs, {"id"});
      var i :- Required(name, kwargs, "id");
      var id := Str(kwargs[i].1);
      if world.modules(CustomModule(id)).None? then Err(ValueError("Unknown custom processing: " + id))
      else Ok(Custom(id))
    else
      var mapping :- NameMapping(kwargs);
      Ok(Rename(mapping))
  }

  /** `get_step_type(name)()`: a step named without arguments. The steps
      with a required argument cannot be built this way. */
  function ConstructNoArguments(name: string): (r: Result<Step>)
    requires name in DECLARED
    ensures r.Ok? <==> name in {"UnZip", "ReadASE", "Rename"}
  {
    if name == "UnZip" then Ok(UnZip(None))
    else if name == "ReadASE" then Ok(ReadASE([]))
    else if name == "Rename" then Ok(Rename([]))
    else Err(TypeError(name + "() missing 1 required positional argument"))
  }

  /** What `for step in steps` visits when `steps` is not a list: the keys of
      a dictionary or the characters of a string, each then taken as a bare
      step name; anything else is not iterable. */
  function IteratedNames(v: Value): (r: Result<seq<string>>)
    ensures v.VDict? ==> r == Ok(Keys(v.entries))
    ensures v.VStr? ==> r.Ok? && |r.value| == |v.s| && forall i :: 0 <= i < |v.s| ==> r.value[i] == [v.s[i]]
    ensures !(v.VDict? || v.VStr? || v.VList?) ==> r.Err? && r.error.TypeError?
  {
    match v
    case VDict(es) => Ok(Keys(es))
    case VStr(s) => Ok(seq(|s|, i requires 0 <= i < |s| => [s[i]]))
    case _ => Err(TypeError(Repr(v) + " is not iterable"))
  }

  /** `[get_step_type(n)() for n in names]`: every name built without
      arguments, the first that fails deciding the error. */
  function ParseNames(names: Result<seq<string>>): (r: Result<seq<Step>>)
    ensures names.Err? ==> r == Err(names.error)
    ensures names.Ok? ==>
              (r.Ok? <==> forall i :: 0 <= i < |names.value| ==>
                            names.value[i] in DECLARED && ConstructNoArguments(names.value[i]).Ok?)
    ensures names.Ok? && r.Ok? ==>
              |r.value| == |names.value| && forall i :: 0 <= i < |names.value| ==> Ok(r.value[i]) == ConstructNoArguments(names.value[i])
    decreases if names.Ok? then |names.value| else 0
  {
    if names.Err? then Err(names.error)
    else if names.value == [] then Ok([])
    else
      var n := names.value[0];
      var _ :- GetStepType(n);
      var s :- ConstructNoArguments(n);
      var rest :- ParseNames(Ok(names.value[1..]));
      assert forall i :: 1 <= i < |names.value| ==> names.value[i] == names.value[1..][i - 1];
      Ok([s] + rest)
  }

  /** Naming a step without arguments builds what an empty keyword
      dictionary builds. */
  lemma NoArgumentsAgree(name: string, world: World)
    requires name in DECLARED
    ensures ConstructNoArguments(name).Ok? <==> Construct(name, [], world).Ok?
    ensures ConstructNoArguments(name).Ok? ==> ConstructNoArguments(name) == Construct(name, [], world)
  {
  }

  /** One entry of a manifest's `processing` list: a step name, built with no
      arguments, or a dictionary whose first key names the step and whose
      value holds its keyword arguments. */
  function ParseStep(raw: Value, world: World): (r: Result<Step>)
    ensures raw.VStr? ==> r == (if raw.s in DECLARED then ConstructNoArguments(raw.s) else GetStepType(raw.s).PropagateFailure())
    ensures raw.VDict? && raw.entries != [] && raw.entries[0].0 !in DECLARED ==> r.Err? && r.error.ValueError?
    ensures raw.VDict? && raw.entries != [] && raw.entries[0].0 in DECLARED && raw.entries[0].1.VDict? ==>
              r == Construct(raw.entries[0].0, raw.entries[0].1.entries, world)
    ensures r.Ok? ==> raw.VStr? || (raw.VDict? && raw.entries != [] && raw.entries[0].1.VDict?)
    decreases raw
  {
    match raw
    case VStr(name) =>
      var _ :- GetStepType(name);
      ConstructNoArguments(name)
    case VDict(entries) =>
      if entries == [] then Err(IndexError("list index out of range"))
      else
        var _ :- GetStepType(entries[0].0);
        var kwargs := entries[0].1;
        if !kwargs.VDict? then Err(TypeError("argument after ** must be a mapping, not " + Repr(kwargs)))
        else Construct(entries[0].0, kwargs.entries, world)
    case _ => Err(AttributeError(Repr(raw) + " has no attribute 'items'"))
  }

  /** The steps for `raw[start..]`: one per entry, in order; the first
      entry that cannot be built decides the error. */
  function ParseStepsFrom(raw: seq<Value>, start: nat, world: World): (r: Result<seq<Step>>)
    requires start <= |raw|
    ensures r.Ok? <==> forall i :: start <= i < |raw| ==> ParseStep(raw[i], world).Ok?
    ensures r.Ok? ==> |r.value| == |raw| - start && forall i :: start <= i < |raw| ==> ParseStep(raw[i], world) == Ok(r.value[i - start])
    decreases VList(raw), |raw| - start
  {
    if start == |raw| then Ok([])
    else
      var s := ParseStep(raw[start], world);
      if s.Err? then Err(s.error)
      else
        var rest := ParseStepsFrom(raw, start + 1, world);
        if rest.Err? then Err(rest.error)
        else
          var r := [s.value] + rest.value;
          assert forall j :: 1 <= j < |r| ==> r[j] == rest.value[j - 1];
          Ok(r)
  }

  /** `parse_steps(raw_steps)`. */
  function ParseSteps(raw: seq<Value>, world: World): (r: Result<seq<Step>>)
    ensures r.Ok? <==> forall i :: 0 <= i < |raw| ==> ParseStep(raw[i], world).Ok?
    ensures r.Ok? ==> |r.value| == |raw| && forall i :: 0 <= i < |raw| ==> ParseStep(raw[i], world) == Ok(r.value[i])
    decreases VList(raw), |raw| + 1
  {
    ParseStepsFrom(raw, 0, world)
  }

  /** A failed parse reports the error of the first entry that cannot be
      built: every entry before it builds. */
  lemma {:induction false} ParseStepsFromFirstError(raw: seq<Value>, start: nat, world: World)
    requires start <= |raw|
    ensures var r := ParseStepsFrom(raw, start, world);
            r.Err? ==> exists i :: start <= i < |raw| && ParseStep(raw[i], world) == Err(r.error)
                                   && forall j :: start <= j < i ==> ParseStep(raw[j], world).Ok?
    decreases |raw| - start
  {
    var r := ParseStepsFrom(raw, start, world);
    if start < |raw| && r.Err? {
      if ParseStep(raw[start], world).Err? {
        assert ParseStep(raw[start], world) == Err(r.error);
      } else {
        ParseStepsFromFirstError(raw, start + 1, world);
        var i :| start + 1 <= i < |raw| && ParseStep(raw[i], world) == Err(r.error)
                 && forall j :: start + 1 <= j < i ==> ParseStep(raw[j], world).Ok?;
        assert forall j :: start <= j < i ==> ParseStep(raw[j], world).Ok?;
      }
    }
  }

  /** `{"SelectFile": {"file": f}}` builds `SelectFile(f)`. */
  lemma SelectFileEntry(f: string, world: World)
    ensures ParseStep(VDict([("SelectFile", VDict([("file", VStr(f))]))]), world) == Ok(SelectFile(VStr(f)))
  {
    var kwargs := [("file", VStr(f))];
    assert Find(kwargs, "file") == Some(0);
    assert OnlyKeywords("SelectFile", kwargs, {"file"}) == Ok(());
    assert Construct("SelectFile", kwargs, world) == Ok(SelectFile(VStr(f)));
  }

  /** The file argument is not checked when the step is built: a value that
      is not a string is accepted and only fails, with a type error, when the
      step joins it onto a path. */
  lemma SelectFileDefersTypeCheck(v: Value, root: Path, world: World)
    ensures ParseStep(VDict([("SelectFile", VDict([("file", v)]))]), world) == Ok(SelectFile(v))
    ensures Apply(SelectFile(v), PathData(root), world).Err? <==> !v.VStr?
    ensures !v.VStr? ==> Apply(SelectFile(v), PathData(root), world).error.TypeError?
  {
    var kwargs := [("file", v)];
    assert Find(kwargs, "file") == Some(0);
    assert OnlyKeywords("SelectFile", kwargs, {"file"}) == Ok(());
  }

  /** `for step in steps` over a dictionary visits its keys: each key is
      built as a bare step name, and the values are ignored. */
  lemma ForEachFileIteratesDictKeys(steps: seq<(string, Value)>, world: World)
    requires forall i :: 0 <= i < |steps| ==> steps[i].0 == "ReadASE"
    ensures ParseStep(VDict([("ForEachFile", VDict([("steps", VDict(steps))]))]), world)
            == Ok(ForEachFile(seq(|steps|, _ => ReadASE([])), None, None))
  {
    var kwargs := [("steps", VDict(steps))];
    assert Find(kwargs, "steps") == Some(0);
    assert Find(kwargs, "files") == None;
    assert Find(kwargs, "pattern") == None;
    assert OnlyKeywords("ForEachFile", kwargs, {"steps", "files", "pattern"}) == Ok(());
    var chain := ParseNames(IteratedNames(VDict(steps)));
    assert chain.Ok?;
    assert chain.value == seq(|steps|, _ => ReadASE([]));
  }

  /** The bare name `ReadASE` builds a reader with no extra arguments. */
  lemma ReadAseEntry(world: World)
    ensures ParseStep(VStr("ReadASE"), world) == Ok(ReadASE([]))
  {
    assert GetStepType("ReadASE") == Ok("ReadASE");
  }

  /** The YAML text `default_processing(file_name)` writes: the name goes
      between double quotes as it is, with nothing escaped. */
  function DefaultYaml(fileName: string): string {
    DEFAULT_HEAD + fileName + DEFAULT_TAIL
  }

  const DEFAULT_HEAD: string := "- SelectFile:\n    file: \""
  const DEFAULT_TAIL: string := "\"\n- ReadASE\n"

  /** A name that reads back unchanged between double quotes: printable
      ASCII with no `"`, which would close the scalar early, and no `\`,
      which would start an escape sequence. */
  predicate QuotesVerbatim(fileName: string) {
    forall i :: 0 <= i < |fileName| ==> ' ' <= fileName[i] <= '~' && fileName[i] != '"' && fileName[i] != '\\'
  }

  /** The entries the default YAML spells out, which is what it parses to
      when the name reads back verbatim. */
  function DefaultRaw(fileName: string): seq<Value> {
    [VDict([("SelectFile", VDict([("file", VStr(fileName))]))]), VStr("ReadASE")]
  }

  /** The YAML parser reads a double-quoted scalar without escapes as its
      characters, so the default YAML of such a name gives its entries. */
  ghost predicate ReadsVerbatim(world: World) {
    forall fileName :: QuotesVerbatim(fileName) ==> world.safeLoad(DefaultYaml(fileName)) == Ok(DefaultRaw(fileName))
  }

  /** The two default entries parse, one step each, in order. */
  lemma DefaultParses(fileName: string, world: World)
    ensures ParseSteps(DefaultRaw(fileName), world) == Ok([SelectFile(VStr(fileName)), ReadASE([])])
  {
    var raw := DefaultRaw(fileName);
    SelectFileEntry(fileName, world);
    ReadAseEntry(world);
    assert ParseStep(raw[0], world) == Ok(SelectFile(VStr(fileName)));
    assert ParseStep(raw[1], world) == Ok(ReadASE([]));
    assert ParseStepsFrom(raw, 2, world) == Ok([]);
    assert [ReadASE([])] + [] == [ReadASE([])];
    assert ParseStepsFrom(raw, 1, world) == Ok([ReadASE([])]);
    assert [SelectFile(VStr(fileName))] + [ReadASE([])] == [SelectFile(VStr(fileName)), ReadASE([])];
    assert ParseStepsFrom(raw, 0, world) == Ok([SelectFile(VStr(fileName)), ReadASE([])]);
  }

  /** `default_processing(file_name)`: the steps the default YAML parses
      to. When it reads back as written they select the file, then read it;
      a YAML error is raised as it is. */
  function DefaultProcessing(fileName: string, world: World): (r: Result<seq<Step>>)
    ensures world.safeLoad(DefaultYaml(fileName)).Err? ==> r == Err(world.safeLoad(DefaultYaml(fileName)).error)
    ensures world.safeLoad(DefaultYaml(fileName)) == Ok(DefaultRaw(fileName)) ==> r == Ok([SelectFile(VStr(fileName)), ReadASE([])])
    ensures ReadsVerbatim(world) && QuotesVerbatim(fileName) ==> r == Ok([SelectFile(VStr(fileName)), ReadASE([])])
  {
    DefaultParses(fileName, world);
    var raw :- world.safeLoad(DefaultYaml(fileName));
    ParseSteps(raw, world)
  }

  // ---------------------------------------------------------------------
  // Running steps

  /** `Chain(steps)(x)`: each step's output is the next step's input. */
  function Run(steps: seq<Step>, x: Data, world: World): (r: Result<Data>)
    decreases steps, 0
  {
    if steps == [] then Ok(x)
    else
      var y :- Apply(steps[0], x, world);
      Run(steps[1..], y, world)
  }

  /** The files `ForEachFile` visits: the named files, each joined onto the
      root as pathlib does, else the sorted matches of the pattern, else
      every entry of the directory, sorted. */
  function SelectedFiles(root: Path, files: Option<seq<string>>, pattern: Option<string>, world: World): (r: seq<Path>)
    ensures files.Some? ==> |r| == |files.value|
    ensures files.Some? ==> forall i :: 0 <= i < |r| ==> r[i] == Files.JoinPath(root, files.value[i])
    ensures files.Some? ==> forall i :: 0 <= i < |r| && !Files.Absolute(files.value[i]) ==> Files.Below(r[i], root)
    ensures files.Some? ==> forall i :: 0 <= i < |r| && Files.IsComponent(files.value[i]) ==>
                              Files.Parent(r[i]) == root && Files.Name(r[i]) == files.value[i]
    ensures files.None? && pattern.Some? ==> r == MatchedFiles(root, world.glob(root, pattern.value))
    ensures files.None? && pattern.None? ==> r == EntryFiles(root, world.entries(root))
  {
    if files.Some? then JoinPaths(root, files.value)
    else if pattern.Some? then MatchedFiles(root, world.glob(root, pattern.value))
    else EntryFiles(root, world.entries(root))
  }

  /** `sorted(root.glob(pattern))`: each match exactly once, in sorted order,
      joined onto the root as pathlib joins it. */
  function MatchedFiles(root: Path, matches: set<string>): (r: seq<Path>)
    ensures var names := Strings.SortedSet(matches);
            && |r| == |matches|
            && (forall i :: 0 <= i < |r| ==> r[i] == Files.JoinPath(root, names[i]) && names[i] in matches)
            && (forall n :: n in matches ==> exists i :: 0 <= i < |r| && names[i] == n)
            && forall i, j :: 0 <= i < j < |r| ==> Strings.Less(names[i], names[j])
  {
    var names := Strings.SortedSet(matches);
    assert forall i, j :: 0 <= i < j < |names| ==> Strings.Less(names[i], names[j]);
    JoinPaths(root, names)
  }

  /** `sorted(root.iterdir())`: each entry exactly once, in sorted order,
      directly inside the root. */
  function EntryFiles(root: Path, entries: seq<string>): (r: seq<Path>)
    ensures var names := Elems(entries);
            && |r| == |names|
            && (forall i :: 0 <= i < |r| ==> Files.Parent(r[i]) == root)
            && (forall i :: 0 <= i < |r| ==> Files.Name(r[i]) in names)
            && (forall n :: n in names ==> exists i :: 0 <= i < |r| && Files.Name(r[i]) == n)
            && forall i, j :: 0 <= i < j < |r| ==> Strings.Less(Files.Name(r[i]), Files.Name(r[j]))
  {
    JoinAll(root, Strings.SortedSet(Elems(entries)))
  }

  /** `[root / name for name in names]` for names that may hold several
      components. */
  function JoinPaths(root: Path, names: seq<string>): (r: seq<Path>)
    ensures |r| == |names|
    ensures forall i :: 0 <= i < |r| ==> r[i] == Files.JoinPath(root, names[i])
  {
    seq(|names|, i requires 0 <= i < |names| => Files.JoinPath(root, names[i]))
  }

  /** `[root / name for name in names]` for directory entries, which are
      single components. */
  function JoinAll(root: Path, names: seq<string>): (r: seq<Path>)
    ensures |r| == |names|
    ensures forall i :: 0 <= i < |r| ==> Files.Parent(r[i]) == root && Files.Name(r[i]) == names[i]
  {
    seq(|names|, i requires 0 <= i < |names| => Files.Join(root, names[i]))
  }

  /** The structures a chain produces for each file, concatenated in file order. */
  function RunEach(chain: seq<Step>, files: seq<Path>, world: World): (r: Result<seq<Structure>>)
    decreases chain, 1, |files|
  {
    if files == [] then Ok([])
    else
      var y :- Run(chain, PathData(files[0]), world);
      if !y.AtomsData? then Err(TypeError("the result of a ForEachFile chain must be a list"))
      else
        var rest :- RunEach(chain, files[1..], world);
        Ok(y.structures + rest)
  }

  /** `step(x)`. A step given the wrong kind of input fails with a TypeError. */
  function Apply(step: Step, x: Data, world: World): (r: Result<Data>)
    decreases step, 2
  {
    match step
    case UnZip(file) =>
      if !x.PathData? then Err(TypeError("UnZip expects a path"))
      else
        var archive :- Archive(x.path, file, world);
        var target := ExtractTarget(x.path, archive);
        var _ :- world.unpack(archive, target);
        Ok(PathData(target))
    case SelectFile(file) =>
      if !x.PathData? then Err(TypeError("SelectFile expects a path"))
      else if !file.VStr? then Err(TypeError("unsupported operand type(s) for /: 'PosixPath' and " + Repr(file)))
      else Ok(PathData(Files.JoinPath(x.path, file.s)))
    case ForEachFile(chain, files, pattern) =>
      if !x.PathData? then Err(TypeError("ForEachFile expects a path"))
      else
        var ss :- RunEach(chain, SelectedFiles(x.path, files, pattern, world), world);
        Ok(AtomsData(ss))
    case ReadASE(kwargs) =>
      if !x.PathData? then Err(TypeError("ReadASE expects a path"))
      else
        var ss :- world.read(x.path, kwargs);
        Ok(AtomsData(ss))
    case Custom(id) =>
      // Python calls `self.func(file)` with whatever it is given, and the
      // module was already imported by the constructor: the two error
      // branches below guard a step no well-formed chain reaches and a
      // `Custom` built without `Construct`, and are the model's own.
      if !x.PathData? then Err(TypeError("Custom expects a path"))
      else if world.modules(CustomModule(id)).None? then Err(ValueError("Unknown custom processing: " + id))
      else
        var ss :- world.modules(CustomModule(id)).value(x.path);
        Ok(AtomsData(ss))
    case Rename(mapping) =>
      if !x.AtomsData? then Err(TypeError("Rename expects a list of structures"))
      else Ok(AtomsData(RenameEvery(x.structures, mapping)))
  }

  /** The archive `UnZip` extracts: `root / file`, joined as pathlib does,
      else the first entry of the directory (an empty directory stops the
      iteration). */
  function Archive(root: Path, file: Option<string>, world: World): (r: Result<Path>)
    ensures r.Err? <==> file.None? && world.entries(root) == []
    ensures file.Some? ==> r == Ok(Files.JoinPath(root, file.value))
    ensures file.Some? && Files.IsComponent(file.value) ==>
              Files.Parent(r.value) == root && Files.Name(r.value) == file.value
    ensures file.None? && r.Ok? ==> Files.Parent(r.value) == root && Files.Name(r.value) == world.entries(root)[0]
  {
    if file.Some? then Ok(Files.JoinPath(root, file.value))
    else if world.entries(root) == [] then Err(StopIteration)
    else Ok(Files.Join(root, world.entries(root)[0]))
  }

  /** `root / f"{archive.name}-extracted"`. */
  function ExtractTarget(root: Path, archive: Path): (r: Path)
    ensures Files.Parent(r) == root && Files.Name(r) == Files.Name(archive) + "-extracted"
  {
    Files.Join(root, Files.Name(archive) + "-extracted")
  }

  // ---------------------------------------------------------------------
  // Rename

  /** One `(old, new)` pair on one structure: the entry moves to `new` in
      `arrays` if `old` is there, else in `info` if it is there. */
  function RenameKey(s: Structure, oldName: string, newName: string): (r: Structure)
    ensures r.numbers == s.numbers
    ensures oldName in s.arrays ==> r.info == s.info && newName in r.arrays && r.arrays[newName] == s.arrays[oldName]
    ensures oldName in s.arrays && oldName != newName ==> oldName !in r.arrays
    ensures oldName in s.arrays ==> forall k :: k != oldName && k != newName ==>
              (k in r.arrays <==> k in s.arrays) && (k in r.arrays ==> r.arrays[k] == s.arrays[k])
    ensures oldName !in s.arrays && oldName in s.info ==> r.arrays == s.arrays && newName in r.info && r.info[newName] == s.info[oldName]
    ensures oldName !in s.arrays && oldName in s.info && oldName != newName ==> oldName !in r.info
    ensures oldName !in s.arrays && oldName in s.info ==> forall k :: k != oldName && k != newName ==>
              (k in r.info <==> k in s.info) && (k in r.info ==> r.info[k] == s.info[k])
    ensures oldName !in s.arrays && oldName !in s.info ==> r == s
    ensures Structures.WellFormed(s) ==> Structures.WellFormed(r)
  {
    if oldName in s.arrays then s.(arrays := (s.arrays - {oldName})[newName := s.arrays[oldName]])
    else if oldName in s.info then s.(info := (s.info - {oldName})[newName := s.info[oldName]])
    else s
  }

  /** Every pair of the mapping, in order, on one structure. */
  function RenameAll(s: Structure, mapping: seq<(string, string)>): (r: Structure)
    ensures r.numbers == s.numbers
    ensures |r.arrays| + |r.info| <= |s.arrays| + |s.info|
    ensures Structures.WellFormed(s) ==> Structures.WellFormed(r)
    decreases mapping
  {
    if mapping == [] then s else RenameAll(RenameKey(s, mapping[0].0, mapping[0].1), mapping[1..])
  }

  /** `Rename(**mapping)(atoms)`: every structure renamed, in place and in order. */
  function RenameEvery(ss: seq<Structure>, mapping: seq<(string, string)>): (r: seq<Structure>)
    ensures |r| == |ss|
    ensures forall i :: 0 <= i < |ss| ==> r[i] == RenameAll(ss[i], mapping) && Sizes(r)[i] == Sizes(ss)[i]
    ensures forall i :: 0 <= i < |ss| && Structures.WellFormed(ss[i]) ==> Structures.WellFormed(r[i])
  {
    seq(|ss|, i requires 0 <= i < |ss| => RenameAll(ss[i], mapping))
  }

  /** Renaming back undoes a rename whose target name was free. */
  lemma RenameBack(s: Structure, oldName: string, newName: string)
    requires oldName != newName && newName !in s.arrays && newName !in s.info
    ensures RenameKey(RenameKey(s, oldName, newName), newName, oldName) == s
  {
    var t := RenameKey(s, oldName, newName);
    if oldName in s.arrays {
      assert RenameKey(t, newName, oldName).arrays == s.arrays;
    } else if oldName in s.info {
      assert RenameKey(t, newName, oldName).info == s.info;
    }
  }

  /** A mapping none of whose oldName names occur leaves the structure alone. */
  lemma {:induction false} RenameAbsent(s: Structure, mapping: seq<(string, string)>)
    requires forall i :: 0 <= i < |mapping| ==> mapping[i].0 !in s.arrays && mapping[i].0 !in s.info
    ensures RenameAll(s, mapping) == s
  {
    if mapping != [] {
      assert RenameKey(s, mapping[0].0, mapping[0].1) == s;
      RenameAbsent(s, mapping[1..]);
    }
  }

  // ---------------------------------------------------------------------
  // Properties of running

  /** Chains compose: running `a + b` runs `a`, then `b` on its output, and
      stops at the first failing step. */
  lemma {:induction false} RunAppend(a: seq<Step>, b: seq<Step>, x: Data, world: World)
    ensures Run(a + b, x, world) == match Run(a, x, world) case Err(e) => Err(e) case Ok(y) => Run(b, y, world)
    decreases a
  {
    if a == [] {
      assert a + b == b;
    } else {
      assert (a + b)[0] == a[0];
      assert (a + b)[1..] == a[1..] + b;
      match Apply(a[0], x, world)
      case Err(_) =>
      case Ok(y) => RunAppend(a[1..], b, y, world);
    }
  }

  /** A chain of one step is the step; the empty chain is the identity. */
  lemma RunSingle(s: Step, x: Data, world: World)
    ensures Run([s], x, world) == Apply(s, x, world)
    ensures Run([], x, world) == Ok(x)
  {
    if Apply(s, x, world).Ok? {
      assert Run([s], x, world) == Run([s][1..], Apply(s, x, world).value, world);
    }
  }

  /** `ForEachFile` concatenates the per-file results in file order. */
  lemma {:induction false} RunEachAppend(chain: seq<Step>, f: seq<Path>, g: seq<Path>, world: World)
    ensures RunEach(chain, f + g, world) ==
              match RunEach(chain, f, world)
              case Err(e) => Err(e)
              case Ok(xs) => match RunEach(chain, g, world) case Err(e) => Err(e) case Ok(ys) => Ok(xs + ys)
    decreases |f|
  {
    if f != [] {
      assert (f + g)[0] == f[0];
      assert (f + g)[1..] == f[1..] + g;
      var y := Run(chain, PathData(f[0]), world);
      if y.Ok? && y.value.AtomsData? {
        RunEachAppend(chain, f[1..], g, world);
        var rf := RunEach(chain, f[1..], world);
        if rf.Ok? && RunEach(chain, g, world).Ok? {
          assert y.value.structures + (rf.value + RunEach(chain, g, world).value)
              == (y.value.structures + rf.value) + RunEach(chain, g, world).value;
        }
      }
    } else {
      assert f + g == g;
      if RunEach(chain, g, world).Ok? {
        assert [] + RunEach(chain, g, world).value == RunEach(chain, g, world).value;
      }
    }
  }

  /** One file contributes exactly what the chain reads from it. */
  lemma RunEachSingle(chain: seq<Step>, file: Path, world: World)
    ensures RunEach(chain, [file], world).Ok? <==> Run(chain, PathData(file), world).Ok? && Run(chain, PathData(file), world).value.AtomsData?
    ensures RunEach(chain, [file], world).Ok? ==> RunEach(chain, [file], world).value == Run(chain, PathData(file), world).value.structures
  {
    assert [file][1..] == [];
    var y := Run(chain, PathData(file), world);
    if y.Ok? && y.value.AtomsData? {
      assert y.value.structures + [] == y.value.structures;
    }
  }

  /** `SelectFile(file)(root)` is `root / file`, and a plain file name lands
      one level below the root. */
  lemma SelectFileJoins(file: string, root: Path, world: World)
    ensures Apply(SelectFile(VStr(file)), PathData(root), world) == Ok(PathData(Files.JoinPath(root, file)))
    ensures Files.IsComponent(file) ==>
              Files.Name(Files.JoinPath(root, file)) == file && Files.Parent(Files.JoinPath(root, file)) == root
  {
  }

  /** A file name with a slash descends into the directory it names:
      `SelectFile("data/x")(root)` is `root / "data" / "x"`. */
  lemma SelectNestedFile(dir: string, file: string, root: Path, world: World)
    requires Files.IsComponent(dir) && Files.IsComponent(file)
    ensures Apply(SelectFile(VStr(dir + "/" + file)), PathData(root), world)
            == Ok(PathData(Files.Join(Files.Join(root, dir), file)))
  {
    Files.JoinPathSlash(root, dir, file);
  }

  /** `UnZip` extracts into `<archive name>-extracted` directly inside the
      root, whichever directory the archive sits in, and returns that
      directory; it fails only when there is no archive to pick or
      extraction fails. */
  lemma UnZipTarget(file: Option<string>, root: Path, world: World)
    ensures var r := Apply(UnZip(file), PathData(root), world);
            var archive := Archive(root, file, world);
            && (file.None? && world.entries(root) == [] ==> r == Err(StopIteration))
            && (r.Ok? ==> archive.Ok? && r.value.PathData? && Files.Parent(r.value.path) == root
                          && Files.Name(r.value.path) == Files.Name(archive.value) + "-extracted"
                          && world.unpack(archive.value, r.value.path).Ok?)
            && (r.Ok? && file.Some? && Files.IsComponent(file.value) ==>
                  Files.Name(r.value.path) == file.value + "-extracted" && archive.value == Files.Join(root, file.value))
  {
  }

  /** An archive in a sub-directory is read from there, but its contents
      land beside the sub-directory: `UnZip(file="sub/a.zip")` extracts
      `root/sub/a.zip` into `root/a.zip-extracted`. */
  lemma UnZipNestedArchive(dir: string, name: string, root: Path, world: World)
    requires Files.IsComponent(dir) && Files.IsComponent(name)
    ensures var r := Apply(UnZip(Some(dir + "/" + name)), PathData(root), world);
            var archive := Files.Join(Files.Join(root, dir), name);
            var target := Files.Join(root, name + "-extracted");
            && (r.Ok? <==> world.unpack(archive, target).Ok?)
            && (r.Ok? ==> r.value == PathData(target))
  {
    Files.JoinPathSlash(root, dir, name);
  }

  /** Selecting a file and then reading it reads the named file with no
      extra arguments. */
  lemma SelectThenRead(fileName: string, root: Path, world: World)
    ensures var r := Run([SelectFile(VStr(fileName)), ReadASE([])], PathData(root), world);
            var read := world.read(Files.JoinPath(root, fileName), []);
            && (r.Ok? <==> read.Ok?)
            && (r.Ok? ==> r.value == AtomsData(read.value))
  {
    RunAppend([SelectFile(VStr(fileName))], [ReadASE([])], PathData(root), world);
    assert [SelectFile(VStr(fileName)), ReadASE([])] == [SelectFile(VStr(fileName))] + [ReadASE([])];
    RunSingle(SelectFile(VStr(fileName)), PathData(root), world);
    RunSingle(ReadASE([]), PathData(Files.JoinPath(root, fileName)), world);
  }

  /** When the default YAML reads back as written, the default chain reads
      the named file with no extra arguments. */
  lemma DefaultProcessingReads(fileName: string, root: Path, world: World)
    ensures world.safeLoad(DefaultYaml(fileName)) == Ok(DefaultRaw(fileName)) ==>
              var r := Run(DefaultProcessing(fileName, world).value, PathData(root), world);
              var read := world.read(Files.JoinPath(root, fileName), []);
              && (r.Ok? <==> read.Ok?)
              && (r.Ok? ==> r.value == AtomsData(read.value))
  {
    SelectThenRead(fileName, root, world);
  }

  /** A step name the registry does not hold fails the whole parse with the
      ValueError naming it, whatever comes after it. */
  lemma UnknownStepFails(name: string, rest: seq<Value>, world: World)
    requires name !in DECLARED
    ensures var r := ParseSteps([VStr(name)] + rest, world);
            r.Err? && r.error == GetStepType(name).error
  {
    assert ([VStr(name)] + rest)[0] == VStr(name);
  }
}
