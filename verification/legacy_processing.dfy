/** The older processing module, `load_atoms/database/processing.py`: four
    steps, a registry whose decorator forgets to return the class, and a
    `parse_steps` that returns the composed function. It runs against the
    same `World` as the newer pipeline.
 */
module LegacyProcessing {
  import opened Wrappers
  import opened Values
  import opened Seqs
  import Files
  import Processing

  type Path = Files.Path
  type Data = Processing.Data
  type World = Processing.World

  datatype Step =
    | UnZip
    | SelectFile(file: Value)
    | ReadASE(kwargs: seq<(string, Value)>)
    | Custom(id: Value)

  /** The step classes in the order the module declares them. */
  const DECLARED: seq<string> := ["UnZip", "SelectFile", "ReadASE", "Custom"]

  /** `register_step(cls)`: records the class under its name but returns
      nothing, so the decorated name is bound to `None`. */
  function RegisterStep(registry: seq<string>, name: string): (r: (seq<string>, Option<string>))
    ensures r.1.None?
    ensures r.0 == Processing.RegisterStep(registry, name).0
  {
    (Processing.RegisterStep(registry, name).0, None)
  }

  /** After the module is imported the registry holds the four classes in
      declaration order, while each module-level name holds `None`; the newer
      module's decorator keeps the names bound. */
  lemma RegistryAndNames()
    ensures Processing.RegisterAll([], DECLARED) == DECLARED
    ensures forall n :: n in DECLARED ==> RegisterStep([], n).1.None? && Processing.RegisterStep([], n).1 == Some(n)
  {
    assert [] + DECLARED == DECLARED;
    Processing.RegisterAllDistinct([], DECLARED);
  }

  /** `get_step_type(name)`: a ValueError names an unregistered step. */
  function GetStepType(name: string): (r: Result<string>)
    ensures r.Ok? <==> name in DECLARED
    ensures r.Ok? ==> r.value == name
    ensures r.Err? ==> r.error.ValueError?
  {
    if name in DECLARED then Ok(name)
    else Err(ValueError("Unknown step: " + name + ". " + "Expected one of " + StrListRepr(DECLARED) + "."))
  }

  /** `get_step_type(name)(**kwargs)`. `UnZip` takes no arguments at all;
      `Custom` imports its module only when it runs. */
  function Construct(name: string, kwargs: seq<(string, Value)>): (r: Result<Step>)
    requires name in DECLARED
    ensures name == "UnZip" ==> (r.Ok? <==> kwargs == [])
    ensures name == "ReadASE" ==> r == Ok(ReadASE(kwargs))
    ensures name == "SelectFile" ==>
              (r.Ok? <==> |kwargs| >= 1 && (forall i :: 0 <= i < |kwargs| ==> kwargs[i].0 == "file"))
    ensures name == "SelectFile" && r.Ok? ==> |kwargs| >= 1 && r.value == SelectFile(kwargs[0].1)
    ensures name == "Custom" ==>
              (r.Ok? <==> |kwargs| >= 1 && (forall i :: 0 <= i < |kwargs| ==> kwargs[i].0 == "id"))
    ensures name == "Custom" && r.Ok? ==> |kwargs| >= 1 && r.value == Custom(kwargs[0].1)
  {
    if name == "UnZip" then
      if kwargs == [] then Ok(UnZip) else Err(TypeError("UnZip() takes no arguments"))
    else if name == "ReadASE" then Ok(ReadASE(kwargs))
    else
      var key := if name == "SelectFile" then "file" else "id";
      var _ :- Processing.OnlyKeywords(name, kwargs, {key});
      var i :- Processing.Required(name, kwargs, key);
      var v := kwargs[i].1;
      Ok(if name == "SelectFile" then SelectFile(v) else Custom(v))
  }

  /** One entry of a `processing` list: a bare name, or a dictionary whose
      first key names the step. */
  function ParseStep(raw: Value): (r: Result<Step>)
    ensures raw.VStr? ==> r == (if raw.s in DECLARED then Construct(raw.s, []) else GetStepType(raw.s).PropagateFailure())
    ensures raw.VDict? && raw.entries != [] && raw.entries[0].0 in DECLARED && raw.entries[0].1.VDict? ==>
              r == Construct(raw.entries[0].0, raw.entries[0].1.entries)
    ensures r.Ok? ==> raw.VStr? || (raw.VDict? && raw.entries != [] && raw.entries[0].1.VDict?)
  {
    match raw
    case VStr(name) =>
      var _ :- GetStepType(name);
      Construct(name, [])
    case VDict(entries) =>
      if entries == [] then Err(IndexError("list index out of range"))
      else
        var _ :- GetStepType(entries[0].0);
        if !entries[0].1.VDict? then Err(TypeError("argument after ** must be a mapping"))
        else Construct(entries[0].0, entries[0].1.entries)
    case _ => Err(AttributeError(Repr(raw) + " has no attribute 'items'"))
  }

  /** `parse_steps(raw_steps)`: one step per entry, in order. */
  function ParseSteps(raw: seq<Value>): (r: Result<seq<Step>>)
    ensures r.Ok? <==> forall i :: 0 <= i < |raw| ==> ParseStep(raw[i]).Ok?
    ensures r.Ok? ==> |r.value| == |raw| && forall i :: 0 <= i < |raw| ==> ParseStep(raw[i]) == Ok(r.value[i])
  {
    if raw == [] then Ok([])
    else
      var s :- ParseStep(raw[0]);
      var rest :- ParseSteps(raw[1..]);
      assert forall i :: 1 <= i < |raw| ==> raw[i] == raw[1..][i - 1];
      Ok([s] + rest)
  }

  /** The module a `Custom` step imports when it runs. */
  function CustomModule(id: string): string {
    "load_atoms.processing.custom_processing." + id
  }

  /** `step(x)`. */
  function Apply(step: Step, x: Data, world: World): (r: Result<Data>) {
    if !x.PathData? then Err(TypeError("a processing step expects a path"))
    else match step
      case UnZip =>
        var target := Extracted(x.path);
        var _ :- world.unpack(x.path, target);
        Ok(Processing.PathData(target))
      case SelectFile(file) =>
        if !file.VStr? then Err(TypeError("unsupported operand type(s) for /: 'PosixPath' and " + Repr(file)))
        else Ok(Processing.PathData(Files.JoinPath(x.path, file.s)))
      case ReadASE(kwargs) =>
        var ss :- world.read(x.path, kwargs);
        Ok(Processing.AtomsData(ss))
      case Custom(id) =>
        var m := CustomModule(Str(id));
        if world.modules(m).None? then Err(ImportError(m))
        else
          var ss :- world.modules(m).value(x.path);
          Ok(Processing.AtomsData(ss))
  }

  /** `file.parent / "extracted"`. */
  function Extracted(file: Path): (r: Path)
    ensures Files.Name(r) == "extracted" && Files.Parent(r) == Files.Parent(file)
  {
    Files.Join(Files.Parent(file), "extracted")
  }

  /** The function `parse_steps` returns: the steps in order. */
  function Process(steps: seq<Step>, x: Data, world: World): (r: Result<Data>)
    ensures steps == [] ==> r == Ok(x)
    ensures steps != [] && Apply(steps[0], x, world).Err? ==> r == Apply(steps[0], x, world)
  {
    if steps == [] then Ok(x)
    else
      var y :- Apply(steps[0], x, world);
      Process(steps[1..], y, world)
  }

  /** The composed function runs the first steps, then the rest on their
      output, stopping at the first failure. */
  lemma {:induction false} ProcessAppend(a: seq<Step>, b: seq<Step>, x: Data, world: World)
    ensures Process(a + b, x, world) == match Process(a, x, world) case Err(e) => Err(e) case Ok(y) => Process(b, y, world)
    decreases a
  {
    if a == [] {
      assert a + b == b;
    } else {
      assert (a + b)[0] == a[0];
      assert (a + b)[1..] == a[1..] + b;
      match Apply(a[0], x, world)
      case Err(_) =>
      case Ok(y) => ProcessAppend(a[1..], b, y, world);
    }
  }

  /** Each older step maps onto a newer one that does the same thing, except
      `UnZip`, which extracts beside the archive into `extracted` where the
      newer step extracts into `<archive name>-extracted`. */
  function Newer(step: Step): (r: Processing.Step) {
    match step
    case UnZip => Processing.UnZip(None)
    case SelectFile(f) => Processing.SelectFile(f)
    case ReadASE(kw) => Processing.ReadASE(kw)
    case Custom(id) => Processing.Custom(Str(id))
  }

  /** Selecting and reading behave as in the newer pipeline. */
  lemma SelectAndReadAgree(step: Step, x: Data, world: World)
    requires step.SelectFile? || step.ReadASE?
    ensures Apply(step, x, world).Ok? <==> Processing.Apply(Newer(step), x, world).Ok?
    ensures Apply(step, x, world).Ok? ==> Apply(step, x, world) == Processing.Apply(Newer(step), x, world)
  {
  }

  /** Extracting an archive `root/a` lands in `root/extracted` here and in
      `root/<name of a>-extracted` in the newer pipeline: the two never
      coincide. */
  lemma UnZipTargetsDiffer(root: Path, a: string, world: World)
    ensures var older := Apply(UnZip, Processing.PathData(Files.Join(root, a)), world);
            var newer := Processing.Apply(Processing.UnZip(Some(a)), Processing.PathData(root), world);
            var newTarget := Files.Join(root, Files.Name(Files.JoinPath(root, a)) + "-extracted");
            && (older.Ok? ==> older.value == Processing.PathData(Files.Join(root, "extracted")))
            && (newer.Ok? ==> newer.value == Processing.PathData(newTarget))
            && (Files.IsComponent(a) ==> newTarget == Files.Join(root, a + "-extracted"))
            && Files.Join(root, "extracted") != newTarget
  {
    var newTarget := Files.Join(root, Files.Name(Files.JoinPath(root, a)) + "-extracted");
    assert Files.Name(Files.Join(root, "extracted")) == "extracted";
    assert Files.Name(newTarget) == Files.Name(Files.JoinPath(root, a)) + "-extracted";
    assert |Files.Name(newTarget)| != |"extracted"|;
  }

  /** A custom step's module is looked up when it runs, under the older
      package path; a missing one is an import error rather than the newer
      ValueError raised while parsing. */
  lemma CustomFailsLate(id: string, p: Path, world: World)
    requires world.modules(CustomModule(id)).None? && world.modules(Processing.CustomModule(id)).None?
    ensures ParseStep(VDict([("Custom", VDict([("id", VStr(id))]))])) == Ok(Custom(VStr(id)))
    ensures Apply(Custom(VStr(id)), Processing.PathData(p), world) == Err(ImportError(CustomModule(id)))
    ensures Processing.ParseStep(VDict([("Custom", VDict([("id", VStr(id))]))]), world).Err?
  {
    var kwargs := [("id", VStr(id))];
    assert Processing.Find(kwargs, "id") == Some(0);
    assert Processing.OnlyKeywords("Custom", kwargs, {"id"}) == Ok(());
  }
}
