/** The older container of `load_atoms.dataset`: `AtomsDataset` wraps a plain
    list of structures, `DescribedDataset` adds the manifest it was loaded
    with, and `load_dataset` decides what its argument is. Indexing works on
    the wrapped list exactly as the in-memory container of the newer module
    does, except that the manifest is not passed on.
 */
module LegacyDatasets {
  import opened Wrappers
  import opened Seqs
  import opened Structures
  import Strings
  import Utils
  import Indexing
  import DatasetInfos
  import AtomsDatasets
  import DatabaseEntries

  /** `AtomsDataset(structures)`, or a `DescribedDataset` when there is a manifest. */
  datatype Dataset = Dataset(structures: seq<Structure>, description: Option<DatasetInfos.Info>)

  /** The warnings the constructor emits for a list of structures. */
  function ConstructionWarnings(ss: seq<Structure>): (r: seq<string>)
    ensures r != [] <==> |ss| == 1
  {
    if |ss| == 1 then [AtomsDatasets.SINGLE_STRUCTURE_WARNING] else []
  }

  /** Every version warns about the same thing: the newer constructor emits
      the same warnings for the same structures. */
  lemma WarningsAgree(ss: seq<Structure>)
    ensures ConstructionWarnings(ss) == AtomsDatasets.NewInMemory(ss, None).1
    ensures |ss| == 1 ==> ConstructionWarnings(ss) == [AtomsDatasets.SINGLE_STRUCTURE_WARNING]
  {
  }

  /** `structure_sizes`. */
  function StructureSizes(d: Dataset): (r: seq<nat>)
    ensures |r| == |d.structures|
    ensures forall i :: 0 <= i < |r| ==> r[i] == |d.structures[i].numbers|
  {
    Sizes(d.structures)
  }

  /** `n_atoms`: the sizes add up. */
  function NAtoms(d: Dataset): (r: nat)
    ensures r == Sum(StructureSizes(d))
    ensures r == Structures.NAtoms(d.structures)
  {
    Sum(StructureSizes(d))
  }

  /** `n_atoms` counts every atom once: the datasets of two halves of a list
      hold as many atoms as the dataset of the whole list, whatever their order. */
  lemma NAtomsSplits(a: seq<Structure>, b: seq<Structure>, ss: seq<Structure>)
    requires multiset(a + b) == multiset(ss)
    ensures NAtoms(Dataset(a, None)) + NAtoms(Dataset(b, None)) == NAtoms(Dataset(ss, None))
  {
    NAtomsAppend(a, b);
    NAtomsPermutation(a + b, ss);
  }

  /** The declared `info` keys: those every structure has. */
  function InfoKeys(d: Dataset): (r: seq<string>)
    ensures forall k :: k in r <==> k in SharedInfoKeys(d.structures)
    ensures d.structures != [] ==> forall k :: k in r <==> forall i :: 0 <= i < |d.structures| ==> k in d.structures[i].info
  {
    Strings.SortedSet(SharedInfoKeys(d.structures))
  }

  /** The declared `arrays` keys: those every structure has. */
  function ArrayKeys(d: Dataset): (r: seq<string>)
    ensures forall k :: k in r <==> k in SharedArrayKeys(d.structures)
    ensures d.structures != [] ==> forall k :: k in r <==> forall i :: 0 <= i < |d.structures| ==> k in d.structures[i].arrays
  {
    Strings.SortedSet(SharedArrayKeys(d.structures))
  }

  /** The loaders are those of the newer in-memory container, so the keys
      agree with it. */
  lemma KeysAgree(d: Dataset)
    ensures InfoKeys(d) == AtomsDatasets.InfoKeys(AtomsDatasets.InMemory(d.structures, None))
    ensures ArrayKeys(d) == AtomsDatasets.ArrayKeys(AtomsDatasets.InMemory(d.structures, None))
  {
  }

  // ---------------------------------------------------------------------
  // Indexing

  /** What indexing the wrapped list gives: one structure or a new list. */
  datatype Selection = One(structure: Structure) | Many(structures: seq<Structure>)

  /** `__getitem__` on the wrapped list, shared by both older containers: a
      slice, a numpy array or mask, or another iterable selects positions, and
      anything else is `int(index)`, read with Python's negative indexing. */
  function IndexStructures(ss: seq<Structure>, index: Indexing.Index): (r: Result<Selection>)
    ensures r.Ok? ==> (r.value.One? <==> index.IntIndex?)
    ensures index.IntIndex? ==> (r.Ok? <==> -(|ss| as int) <= index.i < |ss|)
    ensures index.BoolMask? ==> (r.Ok? <==> |index.mask| == |ss|)
    ensures r.Ok? && r.value.One? ==> r.value.structure in ss
    ensures r.Ok? && r.value.Many? ==> forall x :: x in r.value.structures ==> x in ss
  {
    if index.IntIndex? then
      var p :- Indexing.ResolveInt(index.i, |ss|);
      Ok(One(ss[p]))
    else
      var pos :- Indexing.Positions(index, |ss|);
      Ok(Many(Select(ss, pos)))
  }

  /** The older indexing is the in-memory indexing of the newer container:
      the same indices fail, an int reads the same structure, and any other
      index selects the same structures, building which warns the same way. */
  lemma IndexAgreesWithInMemory(ss: seq<Structure>, index: Indexing.Index, description: Option<DatabaseEntries.Entry>)
    ensures var old_ := IndexStructures(ss, index);
            var new_ := AtomsDatasets.GetItem(AtomsDatasets.InMemory(ss, description), index);
            && (old_.Ok? <==> new_.Ok?)
            && (old_.Err? ==> old_.error == new_.error)
            && (old_.Ok? && index.IntIndex? ==> old_.value.structure == new_.value.structure)
            && (old_.Ok? && !index.IntIndex? ==> old_.value.structures == AtomsDatasets.Iter(new_.value.dataset))
            && (old_.Ok? && !index.IntIndex? ==> new_.value.warnings == ConstructionWarnings(old_.value.structures))
  {
  }

  /** One structure, or a view together with the warnings its constructor
      emitted. */
  datatype Item = Single(structure: Structure) | View(dataset: Dataset, warnings: seq<string>)

  /** `dataset[index]`: one structure, or a plain `AtomsDataset` of the
      selected structures, which has no manifest even when `d` has one. The
      view is built by the constructor, so a view of one structure comes
      with the single-structure warning. */
  function GetItem(d: Dataset, index: Indexing.Index): (r: Result<Item>)
    ensures r.Ok? <==> IndexStructures(d.structures, index).Ok?
    ensures r.Ok? ==> (r.value.Single? <==> index.IntIndex?)
    ensures r.Ok? && r.value.View? ==> r.value.dataset.description.None?
    ensures r.Ok? && r.value.View? ==>
              (r.value.warnings == [AtomsDatasets.SINGLE_STRUCTURE_WARNING] <==> |r.value.dataset.structures| == 1)
              && (r.value.warnings == [] <==> |r.value.dataset.structures| != 1)
  {
    var sel :- IndexStructures(d.structures, index);
    if sel.One? then Ok(Single(sel.structure))
    else Ok(View(Dataset(sel.structures, None), ConstructionWarnings(sel.structures)))
  }

  /** Both containers' views of the same structures come with the same
      warnings. */
  lemma ViewWarningsAgree(d: Dataset, index: Indexing.Index, description: Option<DatabaseEntries.Entry>)
    requires GetItem(d, index).Ok? && !index.IntIndex?
    ensures var new_ := AtomsDatasets.GetItem(AtomsDatasets.InMemory(d.structures, description), index);
            && new_.Ok? && new_.value.View?
            && GetItem(d, index).value.warnings == new_.value.warnings
  {
    IndexAgreesWithInMemory(d.structures, index, description);
  }

  /** Picking one position with a list gives a view of one structure, and
      building it warns, where the same position as an int gives the
      structure without a warning. */
  lemma SingleViewWarns(d: Dataset, i: int)
    requires -|d.structures| <= i < |d.structures|
    ensures GetItem(d, Indexing.IntList([i])).Ok?
    ensures var v := GetItem(d, Indexing.IntList([i])).value;
            && v.View? && |v.dataset.structures| == 1
            && v.warnings == [AtomsDatasets.SINGLE_STRUCTURE_WARNING]
    ensures GetItem(d, Indexing.IntIndex(i)).Ok? && GetItem(d, Indexing.IntIndex(i)).value.Single?
  {
    var r := Indexing.ResolveAll([i], |d.structures|);
    assert Indexing.ResolveInt(i, |d.structures|).Ok?;
    assert r.Ok? && |r.value| == 1;
  }

  /** A described dataset loses its manifest when sliced, unlike the newer
      in-memory container, which keeps its description. */
  lemma SliceDropsDescription(d: Dataset, entry: DatabaseEntries.Entry)
    requires d.description.Some?
    ensures var all := Indexing.SliceIndex(Indexing.Slice(None, None, None));
            && GetItem(d, all).Ok? && GetItem(d, all).value.dataset.description.None?
            && GetItem(d, all).value.dataset.structures == d.structures
            && AtomsDatasets.GetItem(AtomsDatasets.InMemory(d.structures, Some(entry)), all).value.dataset.description == Some(entry)
  {
    var all := Indexing.SliceIndex(Indexing.Slice(None, None, None));
    Indexing.SliceAll(|d.structures|);
    SelectRange(d.structures);
  }

  // ---------------------------------------------------------------------
  // load_dataset

  /** An element of a list argument: a structure, or anything else. */
  datatype Element = AtomsElement(structure: Structure) | OtherElement

  /** What `load_dataset` is given. */
  datatype Argument =
    | ListArgument(elements: seq<Element>)
    | StrArgument(s: string)
    | PathArgument(path: string)
    | OtherArgument

  /** The outcome of loading: the dataset, the warnings and the printed text. */
  datatype Loaded = Loaded(dataset: Dataset, warnings: seq<string>, printed: seq<string>)

  predicate AllStructures(es: seq<Element>) {
    forall i :: 0 <= i < |es| ==> es[i].AtomsElement?
  }

  function ElementStructures(es: seq<Element>): (r: seq<Structure>)
    requires AllStructures(es)
    ensures |r| == |es| && forall i :: 0 <= i < |es| ==> r[i] == es[i].structure
  {
    seq(|es|, i requires 0 <= i < |es| => es[i].structure)
  }

  /** `DescribedDataset.from_id(id, root, verbose)`: `fetched` is what the
      backend returns for the id; with `verbose` the usage notice is printed. */
  function FromId(fetched: Result<(seq<Structure>, DatasetInfos.Info)>, verbose: bool): (r: Result<Loaded>)
    ensures r.Ok? <==> fetched.Ok?
    ensures r.Err? ==> r.error == fetched.error
    ensures r.Ok? ==> && r.value.dataset == Dataset(fetched.value.0, Some(fetched.value.1))
                      && r.value.warnings == ConstructionWarnings(fetched.value.0)
                      && (r.value.printed != [] <==> verbose)
                      && (verbose ==> r.value.printed == [UsageInfo(fetched.value.1)])
  {
    var (ss, info) :- fetched;
    Ok(Loaded(Dataset(ss, Some(info)), ConstructionWarnings(ss), if verbose then [UsageInfo(info)] else []))
  }

  /** `load_dataset(thing, root)`. `existing` holds the paths that exist,
      `read(p)` is `ase.io.read(p, index=":")`, and `fetch(id)` is what the
      backend returns for a dataset id. */
  function LoadDataset(thing: Argument, existing: set<string>, read: string -> Result<seq<Structure>>,
                       fetch: string -> Result<(seq<Structure>, DatasetInfos.Info)>): (r: Result<Loaded>)
    ensures thing.ListArgument? && AllStructures(thing.elements) ==>
              r == Ok(Loaded(Dataset(ElementStructures(thing.elements), None), ConstructionWarnings(ElementStructures(thing.elements)), []))
    ensures thing.OtherArgument? || (thing.ListArgument? && !AllStructures(thing.elements)) ==>
              r.Err? && r.error.TypeError?
    ensures thing.PathArgument? && thing.path !in existing ==> r.Err? && r.error.ValueError?
    ensures (thing.StrArgument? && thing.s in existing) || (thing.PathArgument? && thing.path in existing) ==>
              var p := if thing.StrArgument? then thing.s else thing.path;
              && (r.Ok? <==> read(p).Ok?)
              && (r.Ok? ==> r.value.dataset == Dataset(read(p).value, None) && r.value.printed == [])
    ensures thing.StrArgument? && thing.s !in existing ==> r == FromId(fetch(thing.s), true)
  {
    match thing
    case ListArgument(es) =>
      if AllStructures(es) then
        var ss := ElementStructures(es);
        Ok(Loaded(Dataset(ss, None), ConstructionWarnings(ss), []))
      else Err(TypeError("Could not load dataset from the given list"))
    case OtherArgument => Err(TypeError("Could not load dataset from the given object"))
    case PathArgument(p) =>
      if p in existing then
        var ss :- read(p);
        Ok(Loaded(Dataset(ss, None), ConstructionWarnings(ss), []))
      else Err(ValueError("The provided path does not exist. (" + p + ")"))
    case StrArgument(s) =>
      if s in existing then
        var ss :- read(s);
        Ok(Loaded(Dataset(ss, None), ConstructionWarnings(ss), []))
      else FromId(fetch(s), true)
  }

  /** The empty list is a list of structures: it loads as an empty dataset
      without a warning, and a list holding one non-structure is rejected. */
  lemma LoadEmptyList(existing: set<string>, read: string -> Result<seq<Structure>>,
                      fetch: string -> Result<(seq<Structure>, DatasetInfos.Info)>, s: Structure)
    ensures LoadDataset(ListArgument([]), existing, read, fetch) == Ok(Loaded(Dataset([], None), [], []))
    ensures LoadDataset(ListArgument([AtomsElement(s), OtherElement]), existing, read, fetch).Err?
  {
    assert !AllStructures([AtomsElement(s), OtherElement]) by {
      assert [AtomsElement(s), OtherElement][1].OtherElement?;
    }
  }

  /** A string is read as a file only if that path exists; otherwise it is a
      dataset id, whereas a missing `Path` is an error. */
  lemma StringVersusPath(p: string, existing: set<string>, read: string -> Result<seq<Structure>>,
                         fetch: string -> Result<(seq<Structure>, DatasetInfos.Info)>)
    requires p !in existing && fetch(p).Ok?
    ensures LoadDataset(StrArgument(p), existing, read, fetch).Ok?
    ensures LoadDataset(StrArgument(p), existing, read, fetch).value.dataset.description == Some(fetch(p).value.1)
    ensures LoadDataset(PathArgument(p), existing, read, fetch).Err?
  {
  }

  // ---------------------------------------------------------------------
  // usage_info

  function LicenseLine(info: DatasetInfos.Info): Option<string> {
    if info.license.Some? then Some("The " + info.name + " dataset is covered by the " + info.license.value + " license.")
    else None
  }

  function CitationLine(info: DatasetInfos.Info): Option<string> {
    if info.citation.Some? then Some("Please cite the " + info.name + " dataset if you use it in your work.")
    else None
  }

  function MoreInformationLine(info: DatasetInfos.Info): string {
    "For more information about the " + info.name + " dataset, visit\n" + Utils.FrontendUrl(info.name) + "."
  }

  function UsageLines(info: DatasetInfos.Info): seq<string> {
    Utils.UsageNotice(LicenseLine(info), CitationLine(info), MoreInformationLine(info))
  }

  /** `usage_info(info)`: the lines joined by newlines. The text opens with
      the license sentence when there is a license, else with the citation
      request when there is a citation, and always closes with the dataset's
      page and a full stop. */
  function UsageInfo(info: DatasetInfos.Info): (r: string)
    ensures Strings.EndsWith(r, Utils.FrontendUrl(info.name) + ".")
    ensures info.license.Some? ==>
      Strings.StartsWith(r, "The " + info.name + " dataset is covered by the " + info.license.value + " license.")
    ensures info.license.None? && info.citation.Some? ==>
      Strings.StartsWith(r, "Please cite the " + info.name + " dataset if you use it in your work.")
    ensures info.license.None? && info.citation.None? ==> r == MoreInformationLine(info)
  {
    var lines := UsageLines(info);
    Strings.JoinEnds("\n", lines);
    Strings.EndsWithTrans(Strings.Join("\n", lines), MoreInformationLine(info), Utils.FrontendUrl(info.name) + ".");
    Strings.Join("\n", lines)
  }

  /** The notice has a license line exactly when a license is set, a citation
      line exactly when a citation is set, and always ends with the page of
      the dataset. */
  lemma UsageLinesShape(info: DatasetInfos.Info)
    ensures var ls := UsageLines(info);
            && ((exists l :: l in ls && Strings.StartsWith(l, "The ")) <==> info.license.Some?)
            && ((exists l :: l in ls && Strings.StartsWith(l, "Please cite")) <==> info.citation.Some?)
            && Strings.EndsWith(ls[|ls| - 1], Utils.FrontendUrl(info.name) + ".")
  {
    var ls := UsageLines(info);
    if info.license.Some? {
      assert ls[0] in ls;
    }
    if info.citation.Some? {
      assert ls[|ls| - 2] in ls;
    }
    forall l | l in ls && Strings.StartsWith(l, "The ") ensures info.license.Some? {
      assert l[0] == 'T';
      assert l != MoreInformationLine(info) by { assert MoreInformationLine(info)[0] == 'F'; }
      assert CitationLine(info).Some? ==> l != CitationLine(info).value by {
        if CitationLine(info).Some? { assert CitationLine(info).value[0] == 'P'; }
      }
    }
    forall l | l in ls && Strings.StartsWith(l, "Please cite") ensures info.citation.Some? {
      assert l[0] == 'P';
      assert l != MoreInformationLine(info) by { assert MoreInformationLine(info)[0] == 'F'; }
      assert LicenseLine(info).Some? ==> l != LicenseLine(info).value by {
        if LicenseLine(info).Some? { assert LicenseLine(info).value[0] == 'T'; }
      }
    }
  }
}
