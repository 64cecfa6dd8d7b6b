/** `Dataset` and `DescribedDataset` of `load_atoms.logic`: the same list
    wrapper as the older container of `load_atoms.dataset`, described by the
    manifest model of the `shared` package, with a shorter usage notice.
 */
module LogicDatasets {
  import opened Wrappers
  import opened Structures
  import Strings
  import Utils
  import Indexing
  import SharedDatasetInfos
  import LegacyDatasets

  datatype Dataset = Dataset(structures: seq<Structure>, description: Option<SharedDatasetInfos.Info>)

  /** `Dataset(structures)` with the warnings it emits. */
  function New(ss: seq<Structure>): (r: (Dataset, seq<string>))
    ensures r.0.structures == ss && r.0.description.None?
    ensures r.1 != [] <==> |ss| == 1
  {
    (Dataset(ss, None), LegacyDatasets.ConstructionWarnings(ss))
  }

  /** `Dataset.from_structures(structures)`: `cls(structures)`. */
  function FromStructures(ss: seq<Structure>): (r: (Dataset, seq<string>))
    ensures r.0.structures == ss
    ensures r.1 == LegacyDatasets.ConstructionWarnings(ss)
  {
    New(ss)
  }

  /** `len(dataset)` and iteration are those of the wrapped list, so building
      from structures and iterating gives them back. */
  function Len(d: Dataset): nat {
    |d.structures|
  }

  function Iter(d: Dataset): (r: seq<Structure>)
    ensures |r| == Len(d)
  {
    d.structures
  }

  lemma FromStructuresRoundTrip(ss: seq<Structure>)
    ensures Iter(FromStructures(ss).0) == ss && Len(FromStructures(ss).0) == |ss|
    ensures FromStructures(ss) == New(ss)
  {
  }

  /** `Dataset.from_file(path)`, where `read` is `ase.io.read(path, index=":")`. */
  function FromFile(read: Result<seq<Structure>>): (r: Result<(Dataset, seq<string>)>)
    ensures r.Ok? <==> read.Ok?
    ensures r.Ok? ==> Iter(r.value.0) == read.value && r.value.0.description.None?
  {
    var ss :- read;
    Ok(New(ss))
  }

  /** One structure, or a view together with the warnings its constructor
      emitted. */
  datatype Item = Single(structure: Structure) | View(dataset: Dataset, warnings: seq<string>)

  /** `dataset[index]`: the wrapped list indexed as in the older container; a
      view is a plain `Dataset` without the manifest, built by the
      constructor, so a view of one structure comes with its warning. */
  function GetItem(d: Dataset, index: Indexing.Index): (r: Result<Item>)
    ensures r.Ok? <==> LegacyDatasets.IndexStructures(d.structures, index).Ok?
    ensures r.Ok? ==> (r.value.Single? <==> index.IntIndex?)
    ensures r.Ok? && r.value.View? ==> r.value.dataset.description.None?
    ensures r.Ok? && r.value.View? ==> r.value.warnings == New(r.value.dataset.structures).1
    ensures r.Ok? && r.value.View? ==> (r.value.warnings != [] <==> |r.value.dataset.structures| == 1)
  {
    var sel :- LegacyDatasets.IndexStructures(d.structures, index);
    if sel.One? then Ok(Single(sel.structure))
    else Ok(View(Dataset(sel.structures, None), New(sel.structures).1))
  }

  /** Both older containers index the same way: the same indices fail, and
      the same structure or structures come back, in index order. */
  lemma IndexAgreesWithLegacy(ss: seq<Structure>, index: Indexing.Index)
    ensures var a := GetItem(Dataset(ss, None), index);
            var b := LegacyDatasets.GetItem(LegacyDatasets.Dataset(ss, None), index);
            && (a.Ok? <==> b.Ok?)
            && (a.Ok? && index.IntIndex? ==> a.value.structure == b.value.structure)
            && (a.Ok? && !index.IntIndex? ==> Iter(a.value.dataset) == b.value.dataset.structures)
  {
  }

  /** An int list selects one structure per entry, in order, duplicates
      allowed; a negative entry counts from the end. */
  lemma IntListSelects(d: Dataset, items: seq<int>)
    requires forall j :: 0 <= j < |items| ==> -(Len(d) as int) <= items[j] < Len(d)
    ensures GetItem(d, Indexing.IntList(items)).Ok?
    ensures var v := GetItem(d, Indexing.IntList(items)).value.dataset;
            && Len(v) == |items|
            && forall j :: 0 <= j < |items| ==>
                 Iter(v)[j] == d.structures[if items[j] >= 0 then items[j] else items[j] + Len(d)]
  {
    var r := Indexing.ResolveAll(items, Len(d));
    forall j | 0 <= j < |items| ensures r.value[j] == (if items[j] >= 0 then items[j] else items[j] + Len(d)) {
      assert Indexing.ResolveInt(items[j], Len(d)) == Ok(r.value[j]);
    }
  }

  /** The outcome of loading by id: the dataset, the warnings and the printed text. */
  datatype Loaded = Loaded(dataset: Dataset, warnings: seq<string>, printed: seq<string>)

  /** `DescribedDataset.from_id(id, root, verbose)`, with `fetched` what the
      backend returns for the id. The notice is printed first, then
      `cls(all_structures, info)` runs the constructor, which warns about a
      single structure. */
  function FromId(fetched: Result<(seq<Structure>, SharedDatasetInfos.Info)>, verbose: bool): (r: Result<Loaded>)
    ensures r.Ok? <==> fetched.Ok?
    ensures r.Err? ==> r.error == fetched.error
    ensures r.Ok? ==> && r.value.dataset == Dataset(fetched.value.0, Some(fetched.value.1))
                      && r.value.warnings == LegacyDatasets.ConstructionWarnings(fetched.value.0)
                      && (r.value.printed != [] <==> verbose)
                      && (verbose ==> r.value.printed == [UsageInfo(fetched.value.1)])
  {
    var (ss, info) :- fetched;
    Ok(Loaded(Dataset(ss, Some(info)), New(ss).1, if verbose then [UsageInfo(info)] else []))
  }

  // ---------------------------------------------------------------------
  // usage_info

  function LicenseLine(info: SharedDatasetInfos.Info): Option<string> {
    if info.license.Some? then Some("This dataset is covered by the " + info.license.value + " license.")
    else None
  }

  const CITATION_LINE: string := "Please cite this dataset " + "if you use it in your work."

  function MoreInformationLine(info: SharedDatasetInfos.Info): string {
    "For more information, visit:\n" + Utils.FrontendUrl(info.name)
  }

  function UsageLines(info: SharedDatasetInfos.Info): seq<string> {
    Utils.UsageNotice(LicenseLine(info), if info.citation.Some? then Some(CITATION_LINE) else None,
                      MoreInformationLine(info))
  }

  /** `usage_info(dataset)`: the lines joined by newlines. The text opens
      with the license sentence when there is a license, else with the
      citation request when there is a citation, and always closes with the
      dataset's page. */
  function UsageInfo(info: SharedDatasetInfos.Info): (r: string)
    ensures Strings.EndsWith(r, Utils.FrontendUrl(info.name))
    ensures info.license.Some? ==>
      Strings.StartsWith(r, "This dataset is covered by the " + info.license.value + " license.")
    ensures info.license.None? && info.citation.Some? ==> Strings.StartsWith(r, CITATION_LINE)
    ensures info.license.None? && info.citation.None? ==> r == MoreInformationLine(info)
  {
    var lines := UsageLines(info);
    Strings.JoinEnds("\n", lines);
    Strings.EndsWithTrans(Strings.Join("\n", lines), MoreInformationLine(info), Utils.FrontendUrl(info.name));
    Strings.Join("\n", lines)
  }

  /** An optional license line, an optional citation line and the mandatory
      URL line, in that order: each optional line is there exactly when its
      field is set. */
  lemma UsageLinesShape(info: SharedDatasetInfos.Info)
    ensures var ls := UsageLines(info);
            && (CITATION_LINE in ls <==> info.citation.Some?)
            && ((exists l :: l in ls && Strings.StartsWith(l, "This dataset")) <==> info.license.Some?)
            && Strings.EndsWith(ls[|ls| - 1], Utils.FrontendUrl(info.name))
            && (info.license.Some? && info.citation.Some? ==> ls[0] != CITATION_LINE && ls[1] == CITATION_LINE)
  {
    var ls := UsageLines(info);
    assert CITATION_LINE[0] == 'P';
    assert MoreInformationLine(info)[0] == 'F';
    if info.license.Some? {
      assert ls[0] == LicenseLine(info).value;
      assert LicenseLine(info).value[0] == 'T';
      assert ls[0] in ls;
    }
    forall l | l in ls && Strings.StartsWith(l, "This dataset") ensures info.license.Some? {
      assert l[0] == 'T';
    }
  }
}
