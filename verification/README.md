# load-atoms, modelled in Dafny

`load-atoms` downloads, checks, caches and loads named datasets of atomic
structures, and offers the split helpers used to turn those datasets into
training and test sets. This project models its core as pure Dafny
functions and proves what the code promises about them:

- **Split helpers** (`Utils`, `Seqs`, `Arith`): `random_split`,
  `k_fold_split`, `split_keeping_ratio` and `choose_n`. The seeded numpy
  permutation is a parameter.
- **Datasets** (`Structures`, `Indexing`, `AtomsDatasets`,
  `LegacyDatasets`, `LogicDatasets`, `Manipulations`): Python and numpy
  indexing; the in-memory and LMDB containers; the `info` and `arrays`
  columns; `filter_by`; the fold and split wrappers; what `save` writes.
- **Manifests** (`Values`, `Validation`, `Descriptions`, `Manifests`,
  `DatabaseEntries`, `DatasetInfos`, `SharedDatasetInfos`): the rule
  combinators, and pydantic's field-by-field construction of a manifest
  from parsed YAML.
- **Processing** (`Processing`, `LegacyProcessing`): the step registry,
  `parse_steps`, and the built-in steps.
- **Back ends** (`Files`, `Checksums`, `Importers`, `StrictImporters`,
  `DatabaseBackend`, `StorageBackend`, `FileBackend`): the download, check
  and cache cycle.
  - The file system is a value.
  - The network is a function from URL to response.
  - SHA-256 is a digest parameter.
- **Small helpers**:
  - `Mappings`: `LazyMapping` and `FrozenDict`;
  - `Util`: `pad` and the progress bar;
  - `Strings`: Python string operations;
  - `Wrappers`: the `Result` type that stands for a raised exception.

Every exception the library raises on a path it handles is an `Err` whose
error names the exception class. Every function returning a file system
returns the whole new file system, so "nothing else changes" is stated as
an equation about maps.

The repository is caught mid-refactor. Three generations of the loading
code sit side by side:

1. `dataset.py` with `backend.py` and `database.py`;
2. `logic/` with `backend/` and `shared/`;
3. `atoms_dataset.py` with `database/`.

All three are modelled. Where a call site does not match its callee, the
model follows the evident intent; the cases are listed under "## Left out".

## Model

| member | source | states |
|---|---|---|
| Utils.DebugMode | src/load_atoms/utils.py:15-17 | Debug mode is on exactly when `LOAD_ATOMS_DEBUG` is set to `"1"`; an unset variable counts as off |
| Utils.FrontendUrlInjective | src/load_atoms/utils.py:112-114 | Different dataset names get different pages: the name can be read back from between the documentation base URL and the `.html` suffix |
| Utils.UsageNotice | src/load_atoms/database/backend.py:139-156 | The notice has a license line only when a license is set and a citation line only when a citation is set. It always ends with the more-information line and holds no other line |
| Utils.Union | src/load_atoms/utils.py:122-124 | A key is in the union if and only if some member holds it, so no members give the empty set |
| Utils.Intersect | src/load_atoms/utils.py:127-132 | No members give the empty set. Otherwise a key is in the result if and only if every member holds it |
| Utils.FracOf | src/load_atoms/utils.py:148-149 | `int(f * len)` of a non-negative fraction is the largest whole number whose product with the denominator does not exceed the exact product |
| Utils.SplitSizes | src/load_atoms/utils.py:148-149 | An empty `splits` raises IndexError at `splits[0]`. Counts are kept as given. Each fractional size is the largest whole number not above the fraction of the length |
| Utils.Normalised | src/load_atoms/atoms_dataset.py:261 | `[s / sum(splits) for s in splits]` divides every size by the total. Sizes that add up to zero raise ZeroDivisionError, and each result times the total gives back its size |
| Utils.NormalisedSumsToOne | src/load_atoms/atoms_dataset.py:261 | The normalised fractions of a non-empty list add up to exactly one |
| Utils.SplitPositions | src/load_atoms/utils.py:155-161 | Part `j` takes `sizes[j]` positions. The parts, concatenated, are the first `sum(sizes)` entries of the permutation, so they are consecutive cumulative-sum windows |
| Utils.RandomSplit | src/load_atoms/utils.py:141-161 | A successful split has one part per requested size |
| Utils.RandomSplitErrors | src/load_atoms/utils.py:148-153 | An empty `splits` raises IndexError. Otherwise the split fails exactly when the sizes add up to more than the list holds |
| Utils.RandomSplitParts | src/load_atoms/utils.py:155-161 | Each part has its requested size and holds the items at its run of the permutation. No two runs share a position |
| Utils.RandomSplitSubMultiset | src/load_atoms/utils.py:155-161 | The parts together never hold an item more often than the list does |
| Utils.RandomSplitDisjoint | src/load_atoms/utils.py:155-161 | For a list of distinct items, no item appears twice across the parts, and every item of a part comes from the list |
| Utils.SplitTail | src/load_atoms/utils.py:174 | `xs[:-t]` and `xs[-t:]` together give back `xs` in order. A zero `t` leaves train empty and puts the whole list in test, because `-0 == 0` |
| Utils.KFoldPositions | src/load_atoms/utils.py:171-174 | Train and test positions number `n` together, and every one is a valid position |
| Utils.KFoldSplit | src/load_atoms/utils.py:164-175 | An AssertionError is raised exactly when `fold` is outside `[0, k)`. Otherwise the train and test sizes add up to the list length |
| Utils.KFoldPositionsPartition | src/load_atoms/utils.py:171-174 | Train followed by test is `range(n)` rolled by `fold * n // k`. That is a permutation, so every position lands in exactly one part |
| Utils.KFoldSizes | src/load_atoms/utils.py:164-175 | With at least `k` items, test has `n // k` items and train the rest. With fewer, train is empty and test holds every item |
| Utils.KFoldTestRun | src/load_atoms/utils.py:171-174 | When `n >= k`, a fold's test part is the contiguous run of `n // k` positions ending just before `n - fold * n // k` |
| Utils.KFoldTestsDisjoint | src/load_atoms/utils.py:164-175 | When `n >= k`, two different folds never test the same position |
| Utils.KFoldTestsCover | src/load_atoms/utils.py:164-175 | When `k` divides `n`, position `x` is tested in fold `(n - 1 - x) // (n // k)`, so the `k` test parts cover the list |
| Utils.GroupOrder | src/load_atoms/utils.py:186-188 | The group keys, in first-appearance order, list each id present once and nothing else |
| Utils.GroupOf | src/load_atoms/utils.py:186-188 | A group holds only items of the list |
| Utils.Groups | src/load_atoms/utils.py:186-188 | There is one group per distinct id |
| Utils.GroupsPartition | src/load_atoms/utils.py:186-188 | Grouping keeps every item exactly once: the groups together are a rearrangement of the list |
| Utils.SplitGroups | src/load_atoms/utils.py:191-193 | On success there is one split per group, and each is the splitting function's result on that group. A failing call fails the whole |
| Utils.SplitKeepingRatio | src/load_atoms/utils.py:178-202 | Lists of different lengths raise AssertionError. An empty list raises IndexError, because there is no first group |
| Utils.SplitKeepingRatioShape | src/load_atoms/utils.py:196-202 | The result has as many parts as the first group's split, and no group's split is longer (a longer one raises IndexError). Part `i` is part `i` of every group, in group order. Merging neither loses nor adds an item |
| Utils.SplitKeepingRatioWithin | src/load_atoms/utils.py:178-202 | If the splitting function never invents or duplicates items, neither does the merged result |
| Utils.SplitKeepingRatioPartition | src/load_atoms/utils.py:178-202 | If the splitting function rearranges its input, the merged parts are a rearrangement of the whole list |
| Utils.RandomSplitKeepsWithin | src/load_atoms/utils.py:141-161 | With any seeded permutations, `random_split` is a splitting function that never invents or duplicates items, so it can drive `split_keeping_ratio` |
| Utils.PrefixLengthIsSlice | src/load_atoms/utils.py:207 | `xs[:n]` reads the first `min(n, len)` positions for `n >= 0`, and the first `max(len + n, 0)` for negative `n`, just as `slice.indices` clamps the stop bound |
| Utils.ChooseN | src/load_atoms/utils.py:205-207 | The result is as long as the slice `[:n]` and holds the items at the permutation's first entries |
| Utils.ChooseNSubMultiset | src/load_atoms/utils.py:205-207 | The chosen items are a sub-multiset of the list, and distinct items stay distinct |
| Util.Pad | src/load_atoms/util.py:12-13 | Padding the empty text gives the empty text |
| Util.PadKeepsLines | src/load_atoms/util.py:12-13 | Padding with a non-empty, break-free prefix keeps the lines: the result splits into the original lines, each with the prefix in front |
| Util.PadOfJoin | src/load_atoms/util.py:12-13 | Break-free lines joined by newlines, the last not empty, are padded line by line |
| Util.PadExample | src/load_atoms/util.py:12-13 | `pad("hi\nthere", "  ")` is `"  hi\n  there"` |
| Util.Tenths | src/load_atoms/util.py:19-23 | A zero total raises ZeroDivisionError. Otherwise the tenths are at most 10, equal 10 exactly when the count reaches the total, and below that are the floor of ten times the ratio |
| Util.TenthsMonotone | src/load_atoms/util.py:19-23 | More items done never gives fewer tenths |
| Util.Bar | src/load_atoms/util.py:19-25 | A bar has ten cells, and cell `i` is done exactly when `i` is below the tenths |
| Util.ProgressBar | src/load_atoms/util.py:16-35 | A zero `N` yields no item and fails on the first bar. Otherwise every item is yielded in order, and one bar is drawn before the first item and one after each |
| Util.ProgressBarGrows | src/load_atoms/util.py:16-35 | The bars never shrink and the first has no done cell. The last is full exactly when at least `N` items were seen |
| Checksums.GenerateChecksum | src/load_atoms/checksums.py:6-14 | Feeding the file to the hasher 4096 bytes at a time gives the digest of the whole content, and the checksum is its first 12 characters |
| Checksums.GeneratedChecksumValid | src/load_atoms/checksums.py:6-21 | Every checksum `generate_checksum` makes from a SHA-256 hex digest passes `valid_checksum` |
| Checksums.MatchesOwnChecksum | src/load_atoms/utils.py:25-38 | A file matches its own checksum, and never matches that checksum cut short by one character |
| Checksums.ValidChecksumRejects | src/load_atoms/checksums.py:17-21 | A hash whose length is not 12 is invalid, and so is a 12-character hash with any character outside `string.hexdigits` |
| Checksums.ValidChecksumExamples | src/load_atoms/checksums.py:17-21 | Twelve hex digits in mixed case pass. Eleven or seventeen characters, or a 'g', fail |
| Mappings.NewLazy | src/load_atoms/utils.py:80-87 | A new mapping declares the given keys and has loaded nothing |
| Mappings.NewLazyConsistent | src/load_atoms/utils.py:80-87 | A new mapping satisfies the cache invariant for any loader |
| Mappings.Get | src/load_atoms/utils.py:89-94 | An undeclared key raises KeyError and changes nothing. A declared key yields its cached value and leaves the state alone when cached; otherwise the loader runs once, the value is cached and the key joins the load log. Earlier cache entries are kept |
| Mappings.GetConsistent | src/load_atoms/utils.py:89-94 | Reading keeps the invariant: every cached value is the loader's value for a declared key, and each cached key is logged exactly once. A read of a declared key always yields the loader's value |
| Mappings.GetAllConsistent | src/load_atoms/utils.py:89-94 | Over any sequence of reads the invariant holds, so the loader has run at most once per key. Each read gives the loader's value for a declared key and a KeyError otherwise |
| Mappings.GetAllLog | src/load_atoms/utils.py:89-94 | Reading only appends to the load log, and only keys that were read and are declared |
| Mappings.ViewsIgnoreLoading | src/load_atoms/utils.py:96-109 | Reading never changes what `in`, `len` and iteration report: they depend on the declared keys alone |
| Mappings.FreezeDict | src/load_atoms/utils.py:220-247 | A frozen dictionary holds exactly the given contents and the given error message, or the read-only default message when none is given |
| Mappings.Apply | src/load_atoms/utils.py:224-243 | Every overridden mutator raises ValueError with the dictionary's message and leaves it unchanged |
| Mappings.ApplyAsWritten | src/load_atoms/utils.py:215-243 | As written, every mutator but `\|=` raises. `\|=` is inherited from `dict`, succeeds, and merges the other dictionary in |
| Mappings.InPlaceOrModifies | src/load_atoms/utils.py:215-243 | As written, `\|=` on a frozen `{"a": 1}` with `{"b": 2}` succeeds and changes the contents |
| Mappings.FrozenDictUnchanged | src/load_atoms/utils.py:224-243 | After any sequence of attempted modifications the contents equal the frozen dictionary, every attempt raised the same ValueError, and no mutation that would change a plain `dict` took effect |
| Mappings.FrozenGet | src/load_atoms/utils.py:215-222 | Reading a frozen dictionary gives the stored value for a present key and KeyError for a missing one |
| Validation.Normalise | src/load_atoms/validation.py:58-61 | The shorthands `str`, `int`, `float`, `list` and `dict` become `IsInstance` checks, any other validator is kept, and no validator stays none |
| Validation.MakeIn | src/load_atoms/validation.py:112-113 | `In(values, *more)` holds the values followed by the extra values, in order |
| Validation.HasAll | src/load_atoms/validation.py:137-141 | On a dictionary, `HasFields` is true exactly when every field is a key. A value that supports no `in` raises TypeError when there is a field to look for |
| Validation.Validate | src/load_atoms/validation.py:8-12 | `validate` raises ValueError only when some rule returned false. A rule that raises passes its TypeError on, and no other error comes out |
| Validation.ValidatorSemantics | src/load_atoms/validation.py:14-25 | A Validator used as a rule is true exactly when `validate` succeeds, and false exactly when `validate` raises ValueError. When no rule raises, it is true iff every rule is. An empty Validator accepts everything |
| Validation.ValidatePasses | src/load_atoms/validation.py:8-12 | `validate` succeeds exactly when every rule returns true |
| Validation.ValidateFailsAt | src/load_atoms/validation.py:8-12 | A rule that does not return true makes `validate` fail |
| Validation.ValidateRejects | src/load_atoms/validation.py:8-12 | `validate` raises ValueError exactly when some rule returns false after every earlier rule returned true |
| Validation.RequiredSemantics | src/load_atoms/validation.py:63-68 | `Required` is false on an absent field. On a present field it is true without a validator and otherwise the validator's verdict. A value that supports no `in` raises |
| Validation.OptionalSemantics | src/load_atoms/validation.py:84-89 | `Optional` is true on an absent field and otherwise behaves exactly like `Required` |
| Validation.PresentFieldChecked | src/load_atoms/validation.py:63-89 | On a dictionary that holds the field, `Required` and `Optional` with a validator both give the validator's verdict on the field's value |
| Validation.AbsentField | src/load_atoms/validation.py:64-86 | On a dictionary without the field, `Required` is false and `Optional` is true |
| Validation.ShorthandSemantics | src/load_atoms/validation.py:58-82 | `Required(field, int)` and `Optional(field, int)` check `isinstance(value, int)` on a present field, and likewise for the other shorthands |
| Validation.OneOfSemantics | src/load_atoms/validation.py:101-105 | `OneOf` means "any of": when no option raises it is true iff at least one option passes, so several may pass. An empty `OneOf` is false |
| Validation.ListOfSemantics | src/load_atoms/validation.py:43-49 | `ListOf` is false for anything but a list and true for the empty list. On a list whose items never make the check raise, it is true iff every item passes |
| Validation.ListOfInstance | src/load_atoms/validation.py:43-49 | `ListOf(IsInstance(t))` never raises: it is true iff the data is a list whose every item is an instance of `t` |
| Validation.InSemantics | src/load_atoms/validation.py:115-116 | `In` accepts exactly the data equal, in Python's sense, to one of its values |
| Validation.HasFieldsSemantics | src/load_atoms/validation.py:137-141 | On a dictionary, `HasFields` is true iff every field is a key |
| Validation.IsBibTeXSemantics | src/load_atoms/validation.py:123-127 | Non-strings fail. A string passes iff, once stripped, it starts with '@' and ends with '}', so surrounding whitespace never changes the verdict |
| Descriptions.BlueprintArguments | src/load_atoms/database.py:19-41 | The blueprint holds eight rules in source order: required string `name` and `description`; a string `filename` or a string list `filenames`; optional BibTeX `citation`, a `license` from the three valid ones, `representative_structures`, a string `long_description`, and `properties` with optional "per atom" or "per structure" dictionaries |
| Descriptions.AsDict | src/load_atoms/database.py:59 | `asdict` lists every one of the nine fields under its own name, those left at `None` included, with no key repeated |
| Descriptions.GivenDict | src/load_atoms/database.py:44-55 | The given fields hold a key exactly when that field is not `None` |
| Descriptions.LookupDropNone | src/load_atoms/database.py:44-55 | Dropping the `None` entries hides exactly the keys whose value was `None` and keeps every other entry |
| Descriptions.NormaliseFilenames | src/load_atoms/database.py:61-64 | With no `filename` the fields are unchanged. A `filename` together with `filenames` fails the assertion. A lone `filename` becomes the one-element `filenames` list |
| Descriptions.AsWrittenNeverConstructs | src/load_atoms/database.py:32-59 | As written, no description can be built: `asdict` always holds `representative_structures`, and calling its validator, the list `[int]`, raises |
| Descriptions.AsWrittenRejects | src/load_atoms/database.py:32 | The as-written blueprint rejects every dictionary that holds `representative_structures`, whatever its value |
| Descriptions.Construct | src/load_atoms/database.py:57-64 | A built description keeps every field except `filenames`, which becomes a list: `[filename]` when `filename` was given, otherwise the given `filenames` |
| Descriptions.ConstructSucceedsIff | src/load_atoms/database.py:57-64 | A description builds exactly when it is well-formed: it meets the blueprint and does not give both file fields. Otherwise the error is a validation error or the failed assertion |
| Descriptions.BlueprintAccepts | src/load_atoms/database.py:19-41 | The blueprint accepts the given fields exactly when every one of its eight rules holds, field by field |
| Descriptions.BlueprintAcceptsOn | src/load_atoms/database.py:19-41 | The same holds for any dictionary that holds exactly the given fields |
| Descriptions.BlueprintPasses | src/load_atoms/database.py:19-41 | Passing the blueprint is passing each of its eight rules in turn |
| Descriptions.RequiredRulesOn | src/load_atoms/database.py:22-27 | `name` and `description` pass exactly when they are strings. The file rule passes exactly when a string `filename` or a string list `filenames` is present |
| Descriptions.OptionalRulesOn | src/load_atoms/database.py:30-40 | Each optional rule passes exactly when its field is absent or holds the right kind of value: BibTeX, a valid license, a list of ints, a string, a passing properties value |
| Descriptions.FilenameRule | src/load_atoms/database.py:24-27 | The file rule passes exactly when a string `filename` is present or a list of strings `filenames` is; it does not demand that only one be given |
| Descriptions.OptionalOn | src/load_atoms/database.py:30-40 | An optional rule passes an absent field and otherwise returns what its validator returns |
| Descriptions.RequiredStrOn | src/load_atoms/database.py:22-23 | A required string rule fails on an absent field and otherwise passes exactly when the value is a string |
| Descriptions.CitationRule | src/load_atoms/database.py:30 | The citation passes when absent or when it is BibTeX |
| Descriptions.LicenseRule | src/load_atoms/database.py:17-31 | The license passes when absent or when it is one of "MIT", "CC-BY-4.0" and "CC BY-NC-SA 4.0" |
| Descriptions.IntListRule | src/load_atoms/database.py:32 | `representative_structures` passes when absent or when it is a list of ints |
| Descriptions.LongDescriptionRule | src/load_atoms/database.py:33 | `long_description` passes when absent or when it is a string |
| Descriptions.PropertiesRule | src/load_atoms/database.py:34-40 | `properties` passes when absent or when its value passes the properties rule |
| Descriptions.PropertiesOnDict | src/load_atoms/database.py:36-39 | On a dictionary, the properties rule passes when "per atom" is absent or a dictionary, or when "per structure" is |
| Descriptions.FieldsOf | src/load_atoms/database.py:71 | `cls(**data)` raises TypeError unless the data is a mapping whose keys are all field names and which holds `name` and `description`. Otherwise each field is the given value, or `None` when absent |
| Descriptions.FromFile | src/load_atoms/database.py:66-71 | A description read from YAML passes the blueprint, maps onto the fields, is well-formed, and is what building from those fields gives |
| Descriptions.MinimalDescription | src/load_atoms/database.py:57-64 | A name, a description and one `filename` build, and `filenames` becomes the one-element list of that file |
| Descriptions.Registry | src/load_atoms/database.py:74-77 | The registry holds exactly the names some description carries. Each name maps to a description of that name from the list, with no later one sharing it, so the last file wins |
| Descriptions.GetDescriptionOf | src/load_atoms/database.py:80-88 | A known id gives its registered description. An unknown id raises AssertionError "Dataset <id> is not known." |
| Indexing.ResolveInt | src/load_atoms/atoms_dataset.py:427-428 | `structures[i]` reads a position exactly when `-n <= i < n`: `i` itself when non-negative, otherwise `i + n`. Anything else raises IndexError |
| Indexing.SliceIndices | src/load_atoms/atoms_dataset.py:412-415 | A slice with step zero raises ValueError. Any other slice reads distinct, valid positions |
| Indexing.SliceWithinBounds | src/load_atoms/atoms_dataset.py:412-415 | `structures[a:b]` with `0 <= a <= b <= n` reads exactly positions `a` to `b - 1`, in order |
| Indexing.SliceAll | src/load_atoms/atoms_dataset.py:412-415 | `structures[:]` reads every position in order |
| Indexing.MaskPositions | src/load_atoms/atoms_dataset.py:418-422 | A boolean mask selects, in increasing order, exactly the positions where it is true |
| Indexing.ResolveAll | src/load_atoms/atoms_dataset.py:423-425 | An integer list reads one position per entry, resolved as a single index would be. The first entry outside `[-n, n)` raises IndexError |
| Indexing.Positions | src/load_atoms/atoms_dataset.py:412-425 | Every non-integer index reads valid positions. A mask must be as long as the dataset and then picks exactly its true positions. A list or array reads one position per entry |
| Structures.Sizes | src/load_atoms/atoms_dataset.py:398-401 | There is one size per structure, in order, and each is that structure's atom count |
| Structures.NAtomsAppend | src/load_atoms/atoms_dataset.py:116-118 | The atom count of two structure lists joined is the sum of their atom counts |
| Structures.NAtomsPermutation | src/load_atoms/atoms_dataset.py:116-118 | Reordering the structures never changes the atom count |
| Structures.SharedInfoKeys | src/load_atoms/atoms_dataset.py:608-616 | An in-memory dataset declares exactly the `info` keys every structure has, and none for an empty list |
| Structures.SharedArrayKeys | src/load_atoms/atoms_dataset.py:619-629 | An in-memory dataset declares exactly the `arrays` keys every structure has, and none for an empty list |
| Structures.InfoColumn | src/load_atoms/atoms_dataset.py:613-614 | Loading `info[key]` succeeds exactly when every structure has the key, and then gives one entry per structure, in order. Otherwise it raises KeyError for the key |
| Structures.SharedKeysLoad | src/load_atoms/atoms_dataset.py:608-616 | Every `info` key an in-memory dataset declares loads without error, one entry per structure |
| Structures.InfoColumnOfSelect | src/load_atoms/atoms_dataset.py:354 | The `info` column of a selection of structures is the same selection of the column, which is what `self.info[keep_ratio][idxs]` relies on |
| Structures.ArraysColumn | src/load_atoms/atoms_dataset.py:624-627 | Loading `arrays[key]` succeeds exactly when every structure has the key, and raises KeyError for it otherwise |
| Structures.ArraysColumnBlocks | src/load_atoms/atoms_dataset.py:624-627 | The loaded column holds each structure's rows as one block, in structure order, starting right after the rows of the structures before it |
| Structures.ArraysColumnLength | src/load_atoms/atoms_dataset.py:624-627 | The loaded column has as many rows as all the structures' arrays together |
| Structures.ArraysColumnPerAtom | src/load_atoms/atoms_dataset.py:624-627 | When every array of every structure has one row per atom, the loaded column has one row per atom of the whole dataset |
| Structures.Passing | src/load_atoms/atoms_dataset.py:162-173 | `filter_by` keeps, in increasing order and without repeats, exactly the positions whose structure passes every function and matches every info keyword, a missing key counting as `None` |
| Structures.Kept | src/load_atoms/atoms_dataset.py:162-173 | The reference filter keeps exactly the structures of the list that pass, and never more than the list holds |
| Structures.PassingSelectsKept | src/load_atoms/atoms_dataset.py:173-174 | Reading the passing positions gives exactly the passing structures in their original order, so `self[index]` is the plain filter of the list |
| AtomsDatasets.Iter | src/load_atoms/atoms_dataset.py:430-432 | Iteration yields one structure per entry of the dataset. For LMDB these are the stored records named by the subset, in subset order |
| AtomsDatasets.StructureSizes | src/load_atoms/atoms_dataset.py:398-401 | There is one size per structure of the dataset |
| AtomsDatasets.SizesFollowIteration | src/load_atoms/atoms_dataset.py:116-118 | When the recorded sizes are those of the records, the sizes are the atom counts of the structures iteration yields, in order, and `n_atoms` counts their atoms |
| AtomsDatasets.NewInMemory | src/load_atoms/atoms_dataset.py:365-386 | The new dataset iterates over exactly the given structures and keeps the description. A warning is emitted exactly when there is one structure |
| AtomsDatasets.InfoKeys | src/load_atoms/atoms_dataset.py:382-383 | In memory, the declared `info` keys are exactly those every structure shares. For LMDB they are the metadata's per-structure keys |
| AtomsDatasets.ArrayKeys | src/load_atoms/atoms_dataset.py:385-386 | In memory, the declared `arrays` keys are exactly those every structure shares. For LMDB they are the metadata's per-atom keys |
| AtomsDatasets.Info | src/load_atoms/atoms_dataset.py:382-383 | `dataset.info` iterates over the declared keys and has loaded nothing yet |
| AtomsDatasets.ReadInfo | src/load_atoms/atoms_dataset.py:491-494 | Reading an undeclared key raises KeyError. A declared key gives that key's column over the structures iteration yields, one entry per structure |
| AtomsDatasets.InMemoryInfoLoads | src/load_atoms/atoms_dataset.py:608-616 | In memory, every declared key loads, and entry `i` is structure `i`'s value |
| AtomsDatasets.GetItem | src/load_atoms/atoms_dataset.py:408-428 | An int gives one structure and any other index gives a dataset of the same kind. A view comes with the warnings building it emits, and these are non-empty exactly when an in-memory view holds one structure |
| AtomsDatasets.ViewWarnings | src/load_atoms/atoms_dataset.py:372-378 | Building a view warns exactly when it is an in-memory dataset of one structure. An LMDB view never warns |
| AtomsDatasets.ViewSelects | src/load_atoms/atoms_dataset.py:412-425 | A non-int index succeeds exactly when its positions resolve, and the view iterates over the structures at those positions. In memory the description is kept. An LMDB view reads the same records through the selected part of the subset |
| AtomsDatasets.InMemoryIntIndex | src/load_atoms/atoms_dataset.py:427-428 | In memory, an int in `[-len, len)` reads the stored structure at that position, counting from the end when negative. Any other int raises IndexError |
| AtomsDatasets.SliceView | src/load_atoms/atoms_dataset.py:412-415 | A slice `[a:b]` with `a <= b <= len` gives the contiguous run of structures from `a` to `b - 1` |
| AtomsDatasets.ListView | src/load_atoms/atoms_dataset.py:416-425 | An int list or int array of in-range entries gives one structure per entry, in entry order, repeats included |
| AtomsDatasets.MaskView | src/load_atoms/atoms_dataset.py:418-422 | A boolean mask as long as the dataset keeps exactly the positions where it is true, in order. A mask of any other length raises IndexError |
| AtomsDatasets.LmdbIntIgnoresSubset | src/load_atoms/atoms_dataset.py:512-541 | LMDB int indexing ignores the subset: after `dataset[1:]`, `view[0]` is still record 0, while iterating the view starts at record 1 |
| AtomsDatasets.LmdbSliceFrom | src/load_atoms/atoms_dataset.py:535-536 | `dataset[a:]` on an LMDB dataset keeps the subset from entry `a` on |
| AtomsDatasets.ListIndexIsView | src/load_atoms/atoms_dataset.py:423-425 | Indexing with a list of in-range positions never fails and gives the view of exactly those structures |
| AtomsDatasets.FilterBy | src/load_atoms/atoms_dataset.py:120-174 | Filtering gives a dataset of the same kind. In memory it keeps the description. For LMDB it keeps the records and the metadata. The warnings are those building the filtered view emits |
| AtomsDatasets.FilterByKeeps | src/load_atoms/atoms_dataset.py:162-174 | The filtered dataset holds, in their original order, exactly the structures that every function accepts and whose `info` equals every keyword value, a missing key comparing as `None`. It is what indexing with the passing positions gives, and it warns exactly when an in-memory filter keeps one structure |
| AtomsDatasets.GroupSplitterKeepsWithin | src/load_atoms/atoms_dataset.py:266-268 | `partial(random_split, seed=seed, splits=normalised)` never invents or duplicates an item of the group it splits |
| AtomsDatasets.Chosen | src/load_atoms/atoms_dataset.py:271-274 | `zip` stops at the shorter of the merged parts and the target sizes. Part `j` holds the smaller of its target size and the merged part's size, drawn from the merged part |
| AtomsDatasets.RandomSplitPositions | src/load_atoms/atoms_dataset.py:244-274 | With `keep_ratio` naming an undeclared key, the split raises KeyError "Unknown key <key>. Available keys are: ..." |
| AtomsDatasets.RandomSplitPlainErrors | src/load_atoms/atoms_dataset.py:244-248 | Without `keep_ratio`, the split fails exactly when no sizes are given or the sizes add up to more than the dataset holds |
| AtomsDatasets.RandomSplitKeepRatioErrors | src/load_atoms/atoms_dataset.py:256-261 | With a declared `keep_ratio` key, an empty `splits` raises IndexError at `splits[0]`, and sizes adding up to zero raise ZeroDivisionError while they are normalised |
| AtomsDatasets.RandomSplitPlain | src/load_atoms/atoms_dataset.py:244-248 | Without `keep_ratio`, there is one part per requested size, each of exactly that size, every position is valid, and no position is in two parts or twice in one |
| AtomsDatasets.RandomSplitKeepRatio | src/load_atoms/atoms_dataset.py:250-274 | With `keep_ratio`, part `j` is drawn from merged stratified part `j`, split with the normalised fractions. It holds the smaller of its target size and that part's size. There are as many parts as the shorter of the two lists, every position is valid, and no position appears twice |
| AtomsDatasets.ChosenParts | src/load_atoms/atoms_dataset.py:271-274 | Parts chosen from a split of `range(n)` that invents no position are sized by their targets, drawn from their merged parts, in range and pairwise disjoint |
| AtomsDatasets.MergedWithin | src/load_atoms/atoms_dataset.py:263-269 | Splitting `range(n)` group by group never invents or repeats a position |
| AtomsDatasets.KFoldPositionsOf | src/load_atoms/atoms_dataset.py:331-357 | `k < 2` raises ValueError "k must be at least 2". An undeclared `keep_ratio` key raises KeyError with the available keys. A `keep_ratio` without shuffling raises ValueError "Keep ratio splits are only supported when shuffling." |
| AtomsDatasets.KeepRatioFolds | src/load_atoms/atoms_dataset.py:354-357 | A successful stratified fold is the two parts `split_keeping_ratio` gives when it runs the fold splitter over the shuffled positions, grouped by the dictionary keys of the column read through those positions |
| AtomsDatasets.KeepRatioGroupsByValue | src/load_atoms/utils.py:186-188 | Grouping by a property puts `1` and `1.0` in one group and `1` and `"1"` in two, as a dictionary keyed by the values does |
| Values.KeyOfMatchesPyEq | src/load_atoms/utils.py:186-188 | Two hashable values share a dictionary key exactly when Python finds them equal |
| Utils.GroupsOfTwo | src/load_atoms/utils.py:186-188 | Two items form one group exactly when their ids are equal, and two groups in order otherwise |
| AtomsDatasets.PartitionOfRange | src/load_atoms/atoms_dataset.py:359 | Two position lists that together rearrange `range(n)` are in range, share nothing and repeat nothing |
| AtomsDatasets.KFoldRearranges | src/load_atoms/utils.py:164-175 | For a fold inside `[0, k)`, train and test together are a rearrangement of the list |
| AtomsDatasets.FoldSplitterRearranges | src/load_atoms/atoms_dataset.py:356 | `partial(k_fold_split, k=k, fold=fold)` only rearranges the list it splits |
| AtomsDatasets.FoldSplitterOn | src/load_atoms/atoms_dataset.py:356 | The fold splitter never fails on a list, and its two parts together rearrange it |
| AtomsDatasets.KFoldPlainPartition | src/load_atoms/atoms_dataset.py:331-342 | Without `keep_ratio`, any `k >= 2` and any integer `fold` split the dataset: train and test are in range, disjoint, and together hold every position once |
| AtomsDatasets.KeepRatioFoldParts | src/load_atoms/atoms_dataset.py:354-357 | Splitting group by group with the fold splitter gives two parts that together rearrange the positions |
| AtomsDatasets.KFoldKeepRatioUnpacks | src/load_atoms/atoms_dataset.py:341-357 | A successful `keep_ratio` split was shuffled, had `k >= 2` and a loadable key, and is the stratified fold of the shuffled positions with the fold taken modulo `k` |
| AtomsDatasets.KFoldKeepRatioPartition | src/load_atoms/atoms_dataset.py:343-357 | With `keep_ratio`, a successful split also puts every position in exactly one of train and test |
| AtomsDatasets.KFoldPlainSizes | src/load_atoms/atoms_dataset.py:341-342 | Without `keep_ratio`, a dataset of at least `k` structures gets `len // k` test structures and the rest in train. A smaller one gets an empty train and puts everything in test |
| AtomsDatasets.KFoldFoldModulo | src/load_atoms/atoms_dataset.py:334 | Only `fold % k` matters: folds that differ by a multiple of `k` give the same split, errors included |
| AtomsDatasets.FirstFoldPositions | src/load_atoms/utils.py:171-174 | Fold 0 keeps `range(n)` in order for train and takes the test part from its end |
| AtomsDatasets.UnshuffledFirstFold | src/load_atoms/atoms_dataset.py:338-342 | Unshuffled, fold 0 of a dataset with at least `k` structures puts structure 0 first in train |
| AtomsDatasets.RandomSplitPositionsInBounds | src/load_atoms/atoms_dataset.py:244-274 | Every successful split, with or without `keep_ratio`, holds only valid positions and no position twice |
| AtomsDatasets.RandomSplitOf | src/load_atoms/atoms_dataset.py:244-274 | `random_split` fails exactly when its positions fail, with the same error. Otherwise part `j` is what indexing with the `j`-th position list gives. Part `j` warns exactly when the dataset is in memory and the list has one position, and the warnings come in part order |
| AtomsDatasets.ViewsAt | src/load_atoms/atoms_dataset.py:245-248 | There is one view per position list, and each is what indexing with that list gives. A view warns exactly when the dataset is in memory and its list has one position, and the warnings come in list order |
| AtomsDatasets.RandomSplitOfStructures | src/load_atoms/atoms_dataset.py:176-274 | The parts of a random split never hold a structure more often than the dataset does: together they are a sub-multiset of it |
| AtomsDatasets.KFoldSplitOf | src/load_atoms/atoms_dataset.py:276-359 | `k_fold_split` fails exactly when its positions fail, with the same error. Otherwise train and test are what indexing with the train and test positions gives. Each warns exactly when the dataset is in memory and it has one position, train's warnings first |
| AtomsDatasets.KFoldPartition | src/load_atoms/atoms_dataset.py:331-359 | Every successful k-fold split, with or without `keep_ratio`, puts each position in exactly one of train and test |
| AtomsDatasets.KFoldSplitOfStructures | src/load_atoms/atoms_dataset.py:276-359 | Train and test together hold every structure of the dataset exactly as often as the dataset does, so their atom counts add up to the dataset's |
| AtomsDatasets.SaveLmdb | src/load_atoms/atoms_dataset.py:564-605 | The store holds the structures in order and the given description. It records each structure's size. Its per-structure keys, sorted, are exactly the keys some structure's `info` has. Its per-atom keys, sorted, are the keys some structure's `arrays` has, minus "numbers" and "positions" |
| AtomsDatasets.LoadLmdb | src/load_atoms/atoms_dataset.py:472-500 | Loading reads the stored records and metadata, and has one entry per recorded size. The stored description is not read back |
| AtomsDatasets.LmdbRoundTrip | src/load_atoms/atoms_dataset.py:557-605 | Saving then loading gives back the structures in order, with their sizes and atom count. The declared keys are exactly those some structure has, so every shared key is declared |
| AtomsDatasets.LmdbInfoMayFail | src/load_atoms/atoms_dataset.py:491-494 | A key one structure has and another lacks is declared by the LMDB dataset and fails with KeyError when read. The in-memory dataset of the same structures does not declare it |
| AtomsDatasets.SaveInMemory | src/load_atoms/atoms_dataset.py:440-452 | The pickled data holds the structures and the description |
| AtomsDatasets.SaveLoadRoundTrips | src/load_atoms/atoms_dataset.py:440-459 | The in-memory round trip gives back the structures and the description. The LMDB round trip gives back the structures |
| AtomsDatasets.FileExtensionAndClass | src/load_atoms/atoms_dataset.py:685-691 | Only "lmdb" and "memory" are known, and "lmdb" alone gives the LMDB class. Any other format raises KeyError for it |
| AtomsDatasets.EntryFormatsHaveClass | src/load_atoms/atoms_dataset.py:685-691 | Each format a database entry can hold has an extension and the matching class, and the two formats have different extensions |
| LegacyDatasets.ConstructionWarnings | src/load_atoms/dataset.py:83-90 | The constructor warns exactly when it is given one structure |
| LegacyDatasets.WarningsAgree | src/load_atoms/dataset.py:83-90 | The older and newer constructors emit the same warnings for the same structures: the single-structure warning for one structure and none otherwise |
| LegacyDatasets.StructureSizes | src/load_atoms/dataset.py:102-105 | There is one size per structure, and each is that structure's atom count |
| LegacyDatasets.NAtoms | src/load_atoms/dataset.py:107-110 | `n_atoms` is the sum of the structure sizes, the atom count of the wrapped list |
| LegacyDatasets.NAtomsSplits | src/load_atoms/dataset.py:107-110 | The datasets of two halves of a list hold as many atoms as the dataset of the whole list, whatever their order |
| LegacyDatasets.InfoKeys | src/load_atoms/dataset.py:94-95 | The declared `info` keys are exactly those every structure has |
| LegacyDatasets.ArrayKeys | src/load_atoms/dataset.py:98-99 | The declared `arrays` keys are exactly those every structure has |
| LegacyDatasets.KeysAgree | src/load_atoms/dataset.py:282-303 | The older loaders declare the same keys as the newer in-memory container |
| LegacyDatasets.IndexStructures | src/load_atoms/dataset.py:186-202 | An int gives one structure and succeeds exactly when it lies in `[-len, len)`. A mask must be as long as the list. Whatever is selected comes from the list |
| LegacyDatasets.IndexAgreesWithInMemory | src/load_atoms/dataset.py:186-202 | The older indexing is the newer in-memory indexing: the same indices fail with the same error, an int reads the same structure, and any other index selects the same structures, with the single-structure warning exactly when the old constructor would give it |
| LegacyDatasets.GetItem | src/load_atoms/dataset.py:186-202 | Indexing succeeds exactly when the wrapped list can be indexed. An int gives one structure, and any other index gives a plain dataset with no manifest, together with the warnings its constructor emits: the single-structure warning exactly when the view holds one structure, none otherwise |
| LegacyDatasets.ViewWarningsAgree | src/load_atoms/dataset.py:186-202 | A view of the older container comes with the same warnings as the newer in-memory container's view by the same index |
| LegacyDatasets.SingleViewWarns | src/load_atoms/dataset.py:186-202 | `dataset[[i]]` is a one-structure view and warns about it, while `dataset[i]` is the structure itself |
| LegacyDatasets.SliceDropsDescription | src/load_atoms/dataset.py:186-242 | A described dataset loses its manifest when sliced, though it keeps the structures. The newer in-memory container keeps its description |
| LegacyDatasets.FromId | src/load_atoms/dataset.py:244-276 | Loading by id fails exactly when fetching fails, with the same error. Otherwise the dataset holds the fetched structures and manifest with the constructor's warnings, and the usage notice is printed exactly when `verbose` is set |
| LegacyDatasets.LoadDataset | src/load_atoms/dataset.py:18-67 | A list of structures loads as it is, with no manifest. Any other list, or anything but a string or path, raises TypeError. An existing path is read. A missing `Path` raises ValueError. A string that is no existing path is a dataset id, loaded verbosely |
| LegacyDatasets.LoadEmptyList | src/load_atoms/dataset.py:45-47 | The empty list is a list of structures: it loads as an empty dataset with no warning. A list holding one non-structure is rejected |
| LegacyDatasets.StringVersusPath | src/load_atoms/dataset.py:56-67 | A missing path given as a string is taken as a dataset id and loads with the fetched manifest. The same path given as a `Path` is an error |
| LegacyDatasets.UsageInfo | src/load_atoms/dataset.py:215-232 | The notice opens with the license sentence when a license is set, else with the citation request when a citation is set, else it is only the pointer to the dataset's page; it always ends with that page and a full stop |
| LegacyDatasets.UsageLinesShape | src/load_atoms/dataset.py:215-232 | The notice has a license line exactly when a license is set and a citation line exactly when a citation is set. It always ends with the dataset's page |
| LogicDatasets.New | src/load_atoms/logic/__init__.py:60-72 | The dataset wraps exactly the given structures with no manifest, and warns exactly when there is one structure |
| LogicDatasets.FromStructures | src/load_atoms/logic/__init__.py:119-129 | Building from structures wraps them and emits the same warnings as the older container |
| LogicDatasets.FromStructuresRoundTrip | src/load_atoms/logic/__init__.py:74-129 | Building from structures and iterating gives them back, with one entry per structure. It is the plain constructor |
| LogicDatasets.FromFile | src/load_atoms/logic/__init__.py:131-141 | Loading from a file succeeds exactly when reading it does, and then iterates over the structures read, with no manifest |
| LogicDatasets.GetItem | src/load_atoms/logic/__init__.py:93-111 | Indexing succeeds exactly when the wrapped list can be indexed. An int gives one structure; any other index gives a plain dataset with no manifest, together with the warnings its constructor emits, which are present exactly when the view holds one structure |
| LogicDatasets.IndexAgreesWithLegacy | src/load_atoms/logic/__init__.py:93-111 | Both older containers index the same way: the same indices fail, and the same structure or structures come back, in index order |
| LogicDatasets.IntListSelects | src/load_atoms/logic/__init__.py:107 | A list of in-range ints selects one structure per entry, in order, repeats allowed, a negative entry counting from the end |
| LogicDatasets.FromId | src/load_atoms/logic/__init__.py:153-181 | Loading by id fails exactly when fetching fails, with the same error. Otherwise the dataset holds the fetched structures and manifest, its construction warnings are returned, and the usage notice is printed exactly when `verbose` is set |
| LogicDatasets.UsageInfo | src/load_atoms/logic/__init__.py:187-199 | The notice opens with the license sentence when a license is set, else with the citation request when a citation is set, else it is only the pointer to the dataset's page; it always ends with the page's URL |
| LogicDatasets.UsageLinesShape | src/load_atoms/logic/__init__.py:187-199 | The license line is there exactly when a license is set and the citation line exactly when a citation is set, license first. The last line ends with the dataset's page |
| Manipulations.FilterBy | src/load_atoms/manipulations.py:13-70 | The result has no manifest and holds exactly the structures of the list that every function accepts and whose `info` equals every keyword value, with the constructor's warnings for them |
| Manipulations.LogicFilterBy | src/load_atoms/logic/manipulations.py:15-72 | The logic version, which stops at the first failing function, keeps exactly the same structures as the older one |
| Manipulations.FilterByAgrees | src/load_atoms/manipulations.py:57-70 | All three versions of `filter_by` keep the same structures in the same order: those at the passing positions, which is what the newer method's indexing gives. The older free function and the newer method emit the same warnings |
| Manipulations.TailSplit | src/load_atoms/manipulations.py:124 | `(xs[:-t], xs[-t:])` together give back `xs` in order. For `0 < t <= len` the test part has `t` items. For `t == 0` or `t >= len` train is empty and test holds everything |
| Manipulations.CrossValidatePositions | src/load_atoms/manipulations.py:118-124 | A zero `k` raises ZeroDivisionError, and nothing else fails. Train followed by test is the shuffled positions rolled by `fold * n // k` |
| Manipulations.CrossValidatePartition | src/load_atoms/manipulations.py:118-124 | Whatever `fold`, `k` and `n_test` are, train and test are valid positions, disjoint, and together hold every position exactly once |
| Manipulations.CrossValidateSizes | src/load_atoms/manipulations.py:118-124 | An `n_test` between 1 and `n` puts exactly that many in test and the rest in train. An `n_test` of zero, which the default gives when `n < k`, leaves train empty and puts everything in test |
| Manipulations.CrossValidateDefaultSize | src/load_atoms/manipulations.py:118-119 | With `0 < k <= n`, the default test part holds `n // k` positions and train the rest |
| Manipulations.CrossValidateExample | src/load_atoms/manipulations.py:104-115 | The documented example holds: three structures with `k = 3` give two for training and one for testing |
| Manipulations.CrossValidateFoldShift | src/load_atoms/manipulations.py:123 | `fold` is not reduced modulo `k`, yet folds `k` apart give the same split. The newer `k_fold_split` rejects a fold equal to `k` |
| Manipulations.CrossValidateSplit | src/load_atoms/manipulations.py:73-129 | The split succeeds exactly when `k` is not zero. Train and test then hold the structures at the train and test positions, in that order |
| Manipulations.LogicCrossValidateSplit | src/load_atoms/logic/manipulations.py:75-95 | The logic version succeeds exactly when the older one does and gives the same train and test structures |
| Manipulations.CrossValidateStructures | src/load_atoms/manipulations.py:121-129 | Train and test together hold every structure exactly as often as the dataset does, so their atom counts add up to the dataset's |
| Processing.RegisterStep | src/load_atoms/database/processing/__init__.py:55-57 | Registering adds the class's name to the registry and keeps the registry free of repeats. It returns the class, so the decorated name stays bound to it |
| Processing.RegisterAll | src/load_atoms/database/processing/__init__.py:52-57 | Registering one class after another leaves exactly the earlier names and the new ones in the registry |
| Processing.RegisterAllDistinct | src/load_atoms/database/processing/__init__.py:52-57 | Distinct names registered in turn are listed in the order they were registered |
| Processing.RegisteredSteps | src/load_atoms/database/processing/__init__.py:93-343 | Once the module is imported, `list(_common_steps)` is the six steps in the order they are declared: UnZip, SelectFile, ForEachFile, ReadASE, Custom and Rename |
| Processing.GetStepType | src/load_atoms/database/processing/__init__.py:60-66 | A name resolves exactly when it is registered. Any other name raises a ValueError that starts `Unknown step: <name>` |
| Processing.OnlyKeywords | src/load_atoms/database/processing/__init__.py:127 | A constructor accepts the keyword arguments exactly when each one is a parameter it declares |
| Processing.Find | src/load_atoms/database/processing/__init__.py:127 | Looks up a keyword argument. It finds one exactly when the keyword was given, and its position holds that keyword |
| Processing.Required | src/load_atoms/database/processing/__init__.py:176 | A required parameter that was not given raises Python's TypeError. A given one is found at its position |
| Processing.AsStr | src/load_atoms/database/processing/__init__.py:219-221 | Succeeds exactly on a string and gives back that string |
| Processing.OptionalStr | src/load_atoms/database/processing/__init__.py:127 | An optional string parameter that is absent or `None` gives the default. A string gives itself. Any other value raises the TypeError |
| Processing.AsStrList | src/load_atoms/database/processing/__init__.py:220 | Succeeds exactly on a list of strings and gives those strings in order |
| Processing.OptionalStrList | src/load_atoms/database/processing/__init__.py:220 | An absent `files` parameter gives the default `None` |
| Processing.NameMapping | src/load_atoms/database/processing/__init__.py:349-350 | The keyword arguments of `Rename` are accepted exactly when every value is a string. The pairs are kept in order, old name to new name |
| Processing.Construct | src/load_atoms/database/processing/__init__.py:76-79 | A step that is built has the class its name selects. `ReadASE` keeps every keyword argument. `Custom` is built only when its module imports |
| Processing.ConstructNoArguments | src/load_atoms/database/processing/__init__.py:76 | Building a class from its bare name succeeds exactly for UnZip, ReadASE and Rename. SelectFile, ForEachFile and Custom need an argument |
| Processing.IteratedNames | src/load_atoms/database/processing/__init__.py:74-76 | A `steps` value that is not a list is iterated. A dictionary gives its keys and a string gives its characters, each then taken as a bare step name. Any other value is not iterable and raises a TypeError |
| Processing.ParseNames | src/load_atoms/database/processing/__init__.py:74-76 | Bare names parse exactly when each one is registered and can be built without arguments. Each gives the step its name builds |
| Processing.NoArgumentsAgree | src/load_atoms/database/processing/__init__.py:76-79 | A bare step name builds exactly what the same name with an empty keyword dictionary builds |
| Processing.ParseStep | src/load_atoms/database/processing/__init__.py:74-79 | A string is built as a bare step name. A dictionary's first key names the step and its value gives the keyword arguments. An unknown name raises the ValueError |
| Processing.ParseStepsFrom | src/load_atoms/database/processing/__init__.py:72-81 | The tail of the list parses exactly when every entry in it does, and gives one step per entry in order |
| Processing.ParseSteps | src/load_atoms/database/processing/__init__.py:69-81 | The list parses exactly when every entry does. The chain then has one step per entry, in the same order |
| Processing.ParseStepsFromFirstError | src/load_atoms/database/processing/__init__.py:74-79 | A failed parse reports the error of the first entry that cannot be built, and every entry before that one builds |
| Processing.SelectFileEntry | src/load_atoms/database/processing/__init__.py:166-177 | `{"SelectFile": {"file": f}}` builds `SelectFile(f)` |
| Processing.SelectFileDefersTypeCheck | src/load_atoms/database/processing/__init__.py:176-180 | The `file` argument is not checked when the step is built. A value that is not a string is accepted, and only raises a TypeError when the step joins it onto the path |
| Processing.ForEachFileIteratesDictKeys | src/load_atoms/database/processing/__init__.py:209-223 | The documented `steps: - ReadASE: {}` form is a list. Written as a bare dictionary, `steps` is iterated over its keys, each of which becomes a step without arguments, and the values are ignored |
| Processing.ReadAseEntry | src/load_atoms/database/processing/__init__.py:88 | The bare name `ReadASE` builds a reader with no extra arguments |
| Processing.DefaultParses | src/load_atoms/database/processing/__init__.py:85-90 | The entries the default YAML spells out parse to two steps, the file selection and then the reader |
| Processing.DefaultProcessing | src/load_atoms/database/processing/__init__.py:84-90 | A YAML error in the default text is raised as it is. When the text reads back as written, which a name of printable ASCII without `"` or `\` guarantees, the default chain selects the given file and then reads it with no extra arguments |
| Processing.SelectedFiles | src/load_atoms/database/processing/__init__.py:230-235 | `ForEachFile` visits named files in the order given, each joined onto the root as pathlib joins it (inside the root for a relative name, directly in it for a one-component name). Without names it visits the matches of the pattern when one is given, and the directory entries otherwise |
| Processing.MatchedFiles | src/load_atoms/database/processing/__init__.py:232-233 | Each match of the pattern is visited exactly once, in sorted order, joined onto the root as pathlib joins it, so a nested match lies below a sub-directory |
| Processing.EntryFiles | src/load_atoms/database/processing/__init__.py:234-235 | Each directory entry is visited exactly once, in sorted order, directly inside the root |
| Processing.SelectThenRead | src/load_atoms/database/processing/__init__.py:85-89 | Selecting a file and then reading it succeeds exactly when reading that file inside the root does, and gives what the read gives |
| Processing.Archive | src/load_atoms/database/processing/__init__.py:131-135 | `UnZip` picks `root / file` joined as pathlib joins (a name holding '/' descends into subdirectories), or else the first directory entry. A one-component name lies directly in the root. It fails exactly when no file is named and the directory is empty |
| Processing.ExtractTarget | src/load_atoms/database/processing/__init__.py:136 | The extraction target lies in the root directory and is named `<archive name>-extracted`, wherever the archive itself lies |
| Processing.RenameKey | src/load_atoms/database/processing/__init__.py:356-360 | A name found in `arrays` moves there to its new name, and `info` is untouched. Otherwise a name found in `info` moves within `info`. Every other entry stays as it was, and a name found in neither leaves the structure unchanged |
| Processing.RenameAll | src/load_atoms/database/processing/__init__.py:356-360 | Renaming never changes the atoms and never adds entries |
| Processing.RenameEvery | src/load_atoms/database/processing/__init__.py:352-361 | `Rename` keeps the list's length and order, renames every structure with the whole mapping, and keeps every structure's size |
| Processing.RenameBack | src/load_atoms/database/processing/__init__.py:356-360 | Renaming back undoes a rename whose target name was free |
| Processing.RenameAbsent | src/load_atoms/database/processing/__init__.py:356-361 | A mapping whose old names are all missing leaves a structure unchanged |
| Processing.RunAppend | src/load_atoms/database/processing/__init__.py:42-46 | Running the chain `a + b` runs `a`, then runs `b` on its output, and stops at the first step that fails |
| Processing.RunSingle | src/load_atoms/database/processing/__init__.py:42-46 | A chain of one step does what that step does, and the empty chain returns its input |
| Processing.RunEachAppend | src/load_atoms/database/processing/__init__.py:237-241 | `ForEachFile` joins the results of consecutive groups of files in file order, and stops at the first file whose chain fails |
| Processing.RunEachSingle | src/load_atoms/database/processing/__init__.py:239-240 | One file contributes exactly the structures its chain produces from it |
| Processing.SelectFileJoins | src/load_atoms/database/processing/__init__.py:172-180 | `SelectFile(f)(root)` is `root / f` as pathlib joins it; for a one-component `f` it is a path named `f` directly inside `root` |
| Processing.SelectNestedFile | src/load_atoms/database/processing/__init__.py:172-180 | `SelectFile("dir/file")` descends two levels: it gives `root / dir / file` |
| Processing.UnZipTarget | src/load_atoms/database/processing/__init__.py:130-144 | `UnZip` returns `<archive name>-extracted` in the root directory, after unpacking the archive into it succeeded. A one-component file name is the archive `root / file`. An empty directory with no named file raises StopIteration |
| Processing.UnZipNestedArchive | src/load_atoms/database/processing/__init__.py:130-144 | `UnZip("dir/name")` unpacks `root / dir / name` into `root / name-extracted`, and succeeds exactly when that unpacking does |
| Processing.DefaultProcessingReads | src/load_atoms/database/processing/__init__.py:84-90 | When the default text reads back as written, the default chain succeeds exactly when reading the named file inside the root succeeds, and it returns what that read gives |
| Processing.UnknownStepFails | src/load_atoms/database/processing/__init__.py:60-76 | An unregistered step name fails the whole parse with the ValueError that names it, whatever follows it |
| LegacyProcessing.RegisterStep | src/load_atoms/database/processing.py:24-25 | The older decorator records the class under its name in the same way, but returns nothing |
| LegacyProcessing.RegistryAndNames | src/load_atoms/database/processing.py:21-25 | After import the registry lists UnZip, SelectFile, ReadASE and Custom in declaration order. Each module-level class name is then bound to `None`, where the newer decorator keeps the class |
| LegacyProcessing.GetStepType | src/load_atoms/database/processing.py:28-34 | A name resolves exactly when it is registered. Any other name raises a ValueError |
| LegacyProcessing.Construct | src/load_atoms/database/processing.py:44-89 | `UnZip` accepts no arguments at all. `ReadASE` keeps every keyword argument. `SelectFile` and `Custom` need exactly their one parameter and take its value unchecked. Nothing is imported at build time |
| LegacyProcessing.ParseStep | src/load_atoms/database/processing.py:42-47 | A string is built as a bare step name. A dictionary's first key names the step and its value gives the keyword arguments |
| LegacyProcessing.ParseSteps | src/load_atoms/database/processing.py:37-47 | The list parses exactly when every entry does, giving one step per entry in order |
| LegacyProcessing.Extracted | src/load_atoms/database/processing.py:60 | `UnZip` extracts into a directory named `extracted` beside the archive |
| LegacyProcessing.Process | src/load_atoms/database/processing.py:49-54 | The returned function gives back its input when there are no steps, and stops with the error of a first step that fails |
| LegacyProcessing.ProcessAppend | src/load_atoms/database/processing.py:49-52 | Running the steps `a + b` runs `a`, then runs `b` on its output, and stops at the first failure |
| LegacyProcessing.SelectAndReadAgree | src/load_atoms/database/processing.py:71-82 | The older `SelectFile` and `ReadASE` succeed exactly when the newer ones do, and then give the same result |
| LegacyProcessing.UnZipTargetsDiffer | src/load_atoms/database/processing.py:59-62 | Extracting `root/a` lands in `root/extracted` here but in `root/a-extracted` in the newer pipeline, and the two paths never coincide |
| LegacyProcessing.CustomFailsLate | src/load_atoms/database/processing.py:87-95 | A custom step with a missing module still parses. It fails only when it runs, with an ImportError for the older package path, while the newer pipeline rejects it at parse time |
| Manifests.Present | src/load_atoms/dataset_info.py:36-54 | An optional field counts as given exactly when the mapping holds a value for it other than `None`, and that value is what it holds |
| Manifests.ReadStr | src/load_atoms/dataset_info.py:27-30 | A required `str` field is accepted exactly when it is present and a string, and keeps that string. Otherwise it raises a ValidationError naming the field |
| Manifests.ReadInt | src/load_atoms/database/database_entry.py:48 | A required `int` field is accepted exactly when it is present and an integer, where a bool counts as an integer. Otherwise it raises a ValidationError naming the field |
| Manifests.ReadOptStr | src/load_atoms/dataset_info.py:45-54 | An `Optional[str] = None` field accepts absence, `None` or a string, and keeps the string. Any other value raises "Input should be a valid string" |
| Manifests.ReadOptInt | src/load_atoms/dataset_info.py:42 | An `Optional[int] = None` field accepts absence, `None` or an integer. Any other value raises "Input should be a valid integer" |
| Manifests.ReadOptDict | src/load_atoms/dataset_info.py:48-52 | An `Optional[dict] = None` field accepts absence, `None` or any mapping, kept as it is. Any other value raises "Input should be a valid dictionary" |
| Manifests.IntItems | src/load_atoms/shared/dataset_info.py:36 | The items of a `List[int]` are accepted exactly when every one is an integer, and they are kept in order |
| Manifests.ReadOptIntList | src/load_atoms/shared/dataset_info.py:36 | An `Optional[List[int]] = None` field accepts absence, `None` or a list of integers, and keeps the items. Any other value raises a ValidationError naming the field |
| Manifests.CheckCitation | src/load_atoms/dataset_info.py:72-77 | A citation is accepted exactly when its stripped text starts with `@` and ends with `}`. The stripped text is kept, and any other text raises "Invalid BibTeX: <stripped text>" |
| Manifests.CitationStable | src/load_atoms/dataset_info.py:72-77 | A stored citation passes the validator again and is kept unchanged, so reloading a saved manifest leaves its citation as it was |
| Manifests.CitationAgreesWithIsBibTeX | src/load_atoms/dataset_info.py:72-77 | The manifest models accept exactly the citations that the older `IsBibTeX()` rule accepts |
| Manifests.ReadCitation | src/load_atoms/dataset_info.py:72-77 | Absence gives `None`. A string is accepted exactly when it has the BibTeX shape, and is kept stripped. An explicit `None` reaches the validator and raises an AttributeError there. Any other failure is a ValidationError for `citation` |
| Manifests.ReadLicense | src/load_atoms/dataset_info.py:57-63 | Absence gives `None`. Otherwise the license is accepted exactly when it is a string among the valid names, so an explicit `None` is rejected as well. Failures raise a ValidationError for `license` |
| Manifests.StrEntries | src/load_atoms/dataset_info.py:33 | A `Dict[str, str]` is accepted exactly when every value is a string, and its entries are kept in order |
| Manifests.CheckChecksums | src/load_atoms/dataset_info.py:65-70 | The files are accepted exactly when every checksum is valid, and are then kept unchanged. Otherwise it raises "Invalid checksum: <c>" for an invalid checksum `c` |
| Manifests.ReadFiles | src/load_atoms/dataset_info.py:65-70 | The required `files` field is accepted exactly when it is a mapping of strings whose every value is a valid checksum. The accepted files are exactly that mapping |
| DatabaseEntries.LicenseKeys | src/load_atoms/database/database_entry.py:12-20 | The license list and the URL table name the same six licenses |
| DatabaseEntries.ReadCategory | src/load_atoms/database/database_entry.py:83-89 | A category is accepted exactly when it is present, a string and one of the three valid categories. Otherwise it raises a ValidationError for `category` |
| DatabaseEntries.ReadFormat | src/load_atoms/database/database_entry.py:60 | The format is accepted exactly when it is absent, "lmdb" or "memory". Only "lmdb" selects LMDB, and absence selects memory |
| DatabaseEntries.MinimumVersion | src/load_atoms/database/database_entry.py:106-110 | The minimum version is missing exactly when it is absent or `None`. A string is kept, and a number becomes its decimal text, so the field never fails |
| DatabaseEntries.PropertyOf | src/load_atoms/database/database_entry.py:25-35 | A property description is accepted exactly when it is a mapping with a string `desc` and an optional string `units`. It keeps `desc`, and a failure is reported against the enclosing field |
| DatabaseEntries.PropertyEntries | src/load_atoms/database/database_entry.py:77-80 | A `Dict[str, PropertyDescription]` is accepted exactly when every value is a valid description. Its entries are kept in order |
| DatabaseEntries.ReadProperties | src/load_atoms/database/database_entry.py:77-81 | The per-atom and per-structure property fields accept absence, `None` or a mapping of valid descriptions. Anything else raises a ValidationError for that field |
| DatabaseEntries.BuiltValid | src/load_atoms/database/database_entry.py:38-104 | An entry built from accepted fields has a valid category and a license with a URL. Any citation it has is stripped and in BibTeX shape |
| DatabaseEntries.FromEntries | src/load_atoms/database/database_entry.py:38-110 | The keyword arguments build an entry exactly when every field reader accepts its field. The entry built is always valid |
| DatabaseEntries.FromData | src/load_atoms/database/database_entry.py:119 | `DatabaseEntry(**data)` succeeds exactly when `data` is a mapping whose fields are all accepted. Anything that is not a mapping raises a TypeError |
| DatabaseEntries.FromDataSucceeds | src/load_atoms/database/database_entry.py:45-110 | A mapping is accepted exactly when each field, taken on its own, holds a value of its declared type that passes its validator |
| DatabaseEntries.BuiltFields | src/load_atoms/database/database_entry.py:45-110 | An accepted mapping builds the given name, year, description, category and license. The citation is stripped, the format defaults to memory and the version is kept as text |
| DatabaseEntries.MinimalOn | src/load_atoms/database/database_entry.py:45-81 | A mapping holding only the four required fields builds the entry with every other field at its default |
| DatabaseEntries.MinimalEntry | src/load_atoms/database/database_entry.py:45-81 | A concrete mapping with only the required fields builds that entry |
| DatabaseEntries.StaleFileMessage | src/load_atoms/database/database_entry.py:121-126 | The error for a manifest that cannot be built starts with "Error loading dataset description from" and the path |
| DatabaseEntries.FromYamlFile | src/load_atoms/database/database_entry.py:113-126 | Errors from opening or parsing the file pass through. A mapping that builds gives its entry. Any failure to build raises a ValueError naming the stale file |
| DatabaseEntries.RemoteUrlForYaml | src/load_atoms/database/database_entry.py:129-130 | The manifest URL lies under the dataset's own directory of the base URL and ends in `/<id>.yaml` |
| DatabaseEntries.YamlUrlInjective | src/load_atoms/database/database_entry.py:129-130 | Different ids never share a manifest URL |
| DatabaseEntries.ImporterFileStem | src/load_atoms/database/database_entry.py:133-134 | The stem has the id's length. Each `-` becomes `_`, each upper-case letter becomes lower case, and no `-` or upper-case letter is left |
| DatabaseEntries.ImporterFileStemIdempotent | src/load_atoms/database/database_entry.py:133-134 | A stem is its own stem |
| DatabaseEntries.ImporterFileStemExamples | src/load_atoms/database/database_entry.py:133-134 | `C-GAP-17` gives `c_gap_17`, and `QM9` and `qm9` share a stem |
| DatabaseEntries.RemoteUrlForImporter | src/load_atoms/database/database_entry.py:137-139 | The importer URL lies under `src/load_atoms/database/importers/` of the base URL and ends in `<stem>.py` |
| DatabaseEntries.ImporterUrlSharedIffStem | src/load_atoms/database/database_entry.py:133-139 | Two ids share an importer URL exactly when they share a stem, so ids that differ only in case, or in `-` against `_`, load the same importer |
| DatasetInfos.FromData | src/load_atoms/dataset_info.py:17-77 | `DatasetInfo(**data)` succeeds exactly when `data` is a mapping whose fields are all accepted. The record built is valid, and anything that is not a mapping raises a TypeError |
| DatasetInfos.BuiltValid | src/load_atoms/dataset_info.py:57-77 | A record built from accepted fields has only valid checksums, a license from the newer list, and a stripped BibTeX-shaped citation if it has one |
| DatasetInfos.BuiltFields | src/load_atoms/dataset_info.py:27-77 | An accepted mapping builds the given name, the files with their checksums in the given order, the stripped citation and the given license |
| DatasetInfos.InvalidChecksumRejected | src/load_atoms/dataset_info.py:65-70 | A `files` mapping that holds an invalid checksum is rejected |
| DatasetInfos.FromYamlFile | src/load_atoms/dataset_info.py:80-91 | Errors from opening or parsing pass through. A record that builds is returned. Any failure to build raises "Error loading dataset description from <path>" |
| DatasetInfos.BaseUrl | src/load_atoms/dataset_info.py:97 | A non-empty `url_root` is the base. A missing or empty one is falsy, and the base is then the dataset's directory under the base URL |
| DatasetInfos.RemoteFileLocations | src/load_atoms/dataset_info.py:93-98 | Each file becomes its URL under the base, paired with its checksum, in the order of `files` |
| DatasetInfos.RemoteFileLocationsDistinct | src/load_atoms/dataset_info.py:93-98 | Distinct file names give distinct URLs, and every URL carries a valid checksum, so the mapping has one entry per file |
| DatasetInfos.DescriptionFileUrl | src/load_atoms/dataset_info.py:100-104 | The description URL is the one `DatabaseEntry.remote_url_for_yaml` gives for the same id |
| SharedDatasetInfos.BuiltValid | src/load_atoms/shared/dataset_info.py:51-70 | A record built from accepted fields has only valid checksums, a license from the shared list, and a stripped BibTeX-shaped citation if it has one |
| SharedDatasetInfos.FromData | src/load_atoms/shared/dataset_info.py:11-70 | `DatasetInfo(**data)` succeeds exactly when `data` is a mapping whose fields are all accepted, here including a list of representative structures. Anything that is not a mapping raises a TypeError |
| SharedDatasetInfos.LicenseListsDiffer | src/load_atoms/shared/dataset_info.py:51-56 | The two models disagree on licenses. "CC-BY-4.0" is accepted only by the shared model, "CC BY 4.0" only by the newer one, and they share only "MIT" and "CC BY-NC-SA 4.0" |
| SharedDatasetInfos.FromYamlFile | src/load_atoms/shared/dataset_info.py:72-79 | Opening and parsing errors pass through, and the built record or the construction error is returned as it is |
| SharedDatasetInfos.ErrorsNotWrapped | src/load_atoms/shared/dataset_info.py:72-79 | A mapping without `files` fails with pydantic's "Field required" error for `files` here, where the newer loader raises a ValueError naming the path |
| SharedDatasetInfos.BaseUrl | src/load_atoms/shared/dataset_info.py:85 | A non-empty `url_root` is the base. Otherwise the base is the dataset's directory under the shared base URL |
| SharedDatasetInfos.RemoteFileLocations | src/load_atoms/shared/dataset_info.py:81-86 | Each file becomes its URL under the base, paired with its checksum, in the order of `files` |
| SharedDatasetInfos.RemoteFileLocationsDistinct | src/load_atoms/shared/dataset_info.py:81-86 | Distinct file names give distinct URLs, each with a valid checksum |
| SharedDatasetInfos.DescriptionFileUrl | src/load_atoms/shared/dataset_info.py:88-92 | The description URL sits in the dataset's directory under the shared base, and never equals the newer model's URL for the same id |
| Importers.TrimSlashesDropsSlashes | src/load_atoms/database/importer.py:30 | Trailing slashes are removed and nothing else. The result is a prefix that does not end in `/`, and only slashes follow it |
| Importers.AfterLastSlash | src/load_atoms/database/importer.py:30 | The text after the last slash contains no slash |
| Importers.AfterLastSlashIsTail | src/load_atoms/database/importer.py:30 | The text after the last slash is a suffix of the text, and a slash comes just before it unless it is the whole text |
| Importers.UrlName | src/load_atoms/database/importer.py:30 | `Path(url).name` contains no slash |
| Importers.UrlNameIsSuffix | src/load_atoms/database/importer.py:30 | `Path(url).name` is the end of the URL once trailing slashes are dropped |
| Importers.NewFileDownload | src/load_atoms/database/importer.py:22-30 | A download keeps its URL and hash. An explicit local name is kept, and a missing one defaults to the slash-free last component of the URL |
| Importers.FetchMissing | src/load_atoms/database/importer.py:47-51 | The first loop only adds files. When no download fails, every listed file has a local path afterwards |
| Importers.FetchMissingWrites | src/load_atoms/database/importer.py:48-51 | Every path the first loop creates is the local path of a listed file, and it holds exactly the bytes that file's URL served |
| Importers.FetchMissingFails | src/load_atoms/database/importer.py:48-51 | The loop stops only at a listed file that was missing and whose download failed, with that error. It does not stop when every URL serves |
| Importers.CheckAll | src/load_atoms/database/importer.py:53-60 | The second loop succeeds exactly when every listed path is a file, and otherwise raises FileNotFoundError for the first one that is not. The warnings emitted are exactly those about files before that point whose contents do not match their checksum, naming each one's path |
| Importers.WarningsBeforeFailureKept | src/load_atoms/database/importer.py:53-60 | A mismatching file followed by a missing one still warns about the first before the FileNotFoundError for the second |
| Importers.DownloadAll | src/load_atoms/database/importer.py:33-60 | `download_all` first fetches what is missing. A failed download raises its error before any warning, and otherwise every listed file is checked against its checksum, with the warnings and the error the check gives |
| Importers.MismatchOnlyWarns | src/load_atoms/database/importer.py:53-60 | A checksum mismatch never raises. Once every download succeeds and no listed path is a directory, the call succeeds. Every listed file it does not warn about matches its checksum |
| Importers.NewImporter | src/load_atoms/database/importer.py:79-87 | An importer keeps its files. A missing or empty directory name means "tmp", and cleaning up is the default |
| Importers.ChildDir | src/load_atoms/database/importer.py:133 | `root / name` is a child of the root named `name`, except that `""` and `"."` give the root itself |
| Importers.GetDataset | src/load_atoms/database/importer.py:111-146 | A dataset that is built is held in memory and described by the database entry |
| Importers.GetDatasetCleanup | src/load_atoms/database/importer.py:129-146 | The checksum warnings are returned whatever happens next, and a dataset of one structure adds the constructor's warning after them. A failed download or check raises and leaves the directory. Otherwise the temporary directory goes exactly when cleanup is on and neither debug mode nor a test run is active, whether or not reading failed, and the dataset holds what `get_structures` produced |
| Importers.SingleFileImporter | src/load_atoms/database/importer.py:149-155 | A single-file importer downloads one file, named after its URL, into the root directory itself, and never cleans up |
| Importers.NoCleanupKeeps | src/load_atoms/database/importer.py:144-146 | An importer that does not clean up never loses a file. Whatever existed before is still there, unchanged, whatever happens |
| Importers.SingleFileImporterKeeps | src/load_atoms/database/importer.py:149-155 | A single-file importer works in the root directory and keeps every file that was there |
| Importers.SingleFileImporterReads | src/load_atoms/database/importer.py:157-172 | It succeeds exactly when reading the downloaded file succeeds, and yields `process_atoms` of every structure read, in order |
| Importers.UnzipFile | src/load_atoms/database/importer.py:175-192 | `unzip_file` returns `<name>-extracted` beside the archive, which then exists. If that path already exists, nothing is unpacked and nothing changes |
| Importers.Extracted | src/load_atoms/database/importer.py:191 | Unpacking creates the target directory and every member of the archive below it, with that member's bytes |
| Importers.UnzipIdempotent | src/load_atoms/database/importer.py:186-192 | Unzipping twice is unzipping once. The second call finds the directory and returns it without changing anything |
| Importers.Rename | src/load_atoms/database/importer.py:195-203 | `rename` never changes the atoms |
| Importers.RenamePrefersArrays | src/load_atoms/database/importer.py:198-202 | A name held both per atom and per structure: only the per-atom array moves, and `info` is untouched |
| StrictImporters.Target | src/load_atoms/database/processing/importer.py:93-94 | A URL's file lands in the processing directory under `Path(url).name` |
| StrictImporters.DownloadFile | src/load_atoms/database/processing/importer.py:19-41 | A failed download raises its error and changes nothing. Otherwise the served bytes are written first, and nothing else changes. The call succeeds exactly when they match the checksum, and a mismatch raises a ValueError with the file left in place |
| StrictImporters.FetchOne | src/load_atoms/database/processing/importer.py:92-96 | One turn of the loop only adds files. A target that is already present is left alone with no check, and a turn that succeeds leaves its target present |
| StrictImporters.FetchOneWrites | src/load_atoms/database/processing/importer.py:95-96 | A turn that adds a path adds its URL's target, holding the bytes that URL served. If the turn succeeds, those bytes match the checksum |
| StrictImporters.FetchAll | src/load_atoms/database/processing/importer.py:92-96 | The download loop only adds files |
| StrictImporters.FetchAllCovers | src/load_atoms/database/processing/importer.py:92-96 | A loop that succeeds leaves every listed target present |
| StrictImporters.FetchAllVerified | src/load_atoms/database/processing/importer.py:92-96 | On success, every file the loop created holds bytes that a listed URL served, and those bytes match that URL's checksum |
| StrictImporters.FetchAllFails | src/load_atoms/database/processing/importer.py:92-96 | The loop fails only at a URL whose target was absent and whose download failed or did not match. It succeeds when every URL serves matching bytes |
| StrictImporters.GetDatasetCleanup | src/load_atoms/database/processing/importer.py:83-102 | A failed download raises and leaves the directory. Otherwise the directory goes exactly when the importer cleans up, whether or not processing failed. The dataset holds what `process` produced and has no description. There is a warning exactly when a dataset of one structure is built |
| StrictImporters.SingleFileImporter | src/load_atoms/database/processing/importer.py:105-107 | A single-file importer has exactly one URL with its hash, keeps the processing directory it is given, and never cleans up |
| StrictImporters.SingleFileImporterReads | src/load_atoms/database/processing/importer.py:109-118 | It reads the file named after its URL in the processing directory. It succeeds exactly when that read does, giving one processed structure per structure read, in order |
| StrictImporters.PresentFilesSkipped | src/load_atoms/database/processing/importer.py:92-96 | Targets that are already present are neither downloaded nor checked. The loop then changes nothing and succeeds whatever the network serves |
| StrictImporters.OlderImporterWarns | src/load_atoms/database/importer.py:53-60 | The importers in `database/importer.py` warn about a listed file already present whose contents do not match |
| StrictImporters.CorruptFileUnnoticed | src/load_atoms/database/processing/importer.py:92-96 | A corrupt file already in the directory is accepted silently here, where the older importer warns about it |
| StrictImporters.MismatchLeavesFile | src/load_atoms/database/processing/importer.py:37-41 | A download that does not match raises a ValueError, and the bad file stays behind in the processing directory |
| StrictImporters.AllPresentOnlyProcesses | src/load_atoms/database/processing/importer.py:88-99 | Once every target is present in an existing processing directory, a call downloads nothing and succeeds exactly when `process` does |
| StrictImporters.RetryAcceptsCorrupt | src/load_atoms/database/processing/importer.py:92-99 | After a mismatch, the next call finds the corrupt file present, skips the check and hands the file to `process`. It then succeeds exactly when `process` does |
| DatabaseBackend.YamlPath | src/load_atoms/database/backend.py:38 | The manifest is `root/<id>/<id>.yaml` |
| DatabaseBackend.DataPath | src/load_atoms/database/backend.py:39 | The cache is `root/<id>/<id>.pkl` |
| DatabaseBackend.CachePaths | src/load_atoms/database/backend.py:38-40 | Manifest and cache sit side by side in `root/<id>` and never coincide, and different ids use different directories |
| DatabaseBackend.ReadBytes | src/load_atoms/database/backend.py:85 | A path can be read exactly when it is a file, and gives that file's bytes |
| DatabaseBackend.FetchIfAbsent | src/load_atoms/database/backend.py:75-83 | A path that exists is left alone. A missing one is fetched, and fetching succeeds exactly when the download does. A failed download leaves the file system as it was and raises UnknownDatasetException for the id |
| DatabaseBackend.GetDatabaseEntry | src/load_atoms/database/backend.py:68-99 | A missing manifest is downloaded first, and a failed download makes the id unknown. Reading errors pass through. A valid entry is returned exactly when its minimum version is not above the current one, and otherwise the call raises the upgrade error |
| DatabaseBackend.ManifestOnDiskUsed | src/load_atoms/database/backend.py:75 | A manifest already on disk is used as it is, and the network plays no part |
| DatabaseBackend.UnreachableManifestUnknown | src/load_atoms/database/backend.py:75-83 | A missing manifest that cannot be downloaded makes the id unknown, and nothing is written |
| DatabaseBackend.VersionGateLexicographic | src/load_atoms/database/backend.py:87-90 | The version gate compares text, not numbers. "0.1.10" sorts below "0.1.4", so a dataset needing 0.1.10 loads under 0.1.4, while one needing 0.2 does not |
| DatabaseBackend.ImporterPath | src/load_atoms/database/backend.py:110-113 | The importer module is `importers/<stem>.py` inside the package |
| DatabaseBackend.ImportDataset | src/load_atoms/database/backend.py:102-136 | A missing importer module is downloaded first, and a failed download makes the id unknown. An import error passes through. Otherwise the importer runs against `root/raw-downloads` and gives an in-memory dataset described by the entry |
| DatabaseBackend.SharedImporter | src/load_atoms/database/backend.py:110-130 | Ids that differ only in case, or in `-` against `_`, share one importer module and import the same way |
| DatabaseBackend.UsageInformation | src/load_atoms/database/backend.py:139-156 | The notice fails exactly when the license has no URL. Otherwise it has a blank line, a license line when there is a license, a citation line when there is a citation, and two lines ending in the `load-atoms/<name>` link |
| DatabaseBackend.LicenseLine | src/load_atoms/database/backend.py:143-148 | There is a license line exactly when there is a license, and it ends in "license." |
| DatabaseBackend.UrlLine | src/load_atoms/database/backend.py:154-156 | The last line links to the dataset's page and ends in `load-atoms/<name>` |
| DatabaseBackend.ValidEntryHasNotice | src/load_atoms/database/backend.py:143-144 | Every validated entry has a usage notice, because its license, if any, has a URL |
| DatabaseBackend.LoadCached | src/load_atoms/database/backend.py:48-50 | A cached dataset that loads comes from a file whose bytes unpickle, and is the in-memory dataset they hold. There is a warning exactly when that dataset holds one structure |
| DatabaseBackend.SaveCached | src/load_atoms/database/backend.py:56-58 | Caching writes the pickled structures and description to the cache file and changes nothing else |
| DatabaseBackend.FetchStructures | src/load_atoms/database/backend.py:47-58 | With a cache file present, the dataset and its warnings are read from it and nothing is written. Otherwise the importer runs, and an imported dataset is written to the cache |
| DatabaseBackend.LoadDataset | src/load_atoms/database/backend.py:38-40 | A file where the dataset directory should be stops the call, and nothing changes |
| DatabaseBackend.LoadDatasetSteps | src/load_atoms/database/backend.py:21-65 | `load_dataset` reads the manifest, whose errors stop it, then fetches the structures. It succeeds exactly when they are fetched and the usage notice can be formed, returning the dataset with its notice |
| DatabaseBackend.LoadFromEntrySteps | src/load_atoms/database/backend.py:47-60 | After the manifest, the result is the fetched dataset with the entry's usage notice. It fails when either fails |
| DatabaseBackend.CacheHitSkipsImporter | src/load_atoms/database/backend.py:48-50 | With a cache file present the importer is never consulted, so any importer modules give the same outcome |
| DatabaseBackend.EntryIgnoresImporters | src/load_atoms/database/backend.py:68-99 | Reading the manifest never consults the importers |
| DatabaseBackend.CachedIgnoresImporters | src/load_atoms/database/backend.py:48-50 | With the cache file present, fetching the structures reads it and never consults the importers |
| DatabaseBackend.CacheMissSaves | src/load_atoms/database/backend.py:52-58 | A cache miss runs the importer and writes the result to the cache. Loading that file back gives the same structures and description |
| DatabaseBackend.FailedImportNotCached | src/load_atoms/database/backend.py:52-58 | A failed import writes no cache file, so the next call imports again. Nothing fetched before the failure is removed |
| StorageBackend.MessageInjective | src/load_atoms/backend/__init__.py:102-105 | Each checksum warning names its file, so different files give different messages |
| StorageBackend.SubFolder | src/load_atoms/backend/__init__.py:62-63 | Each dataset lives in `root/<id>` |
| StorageBackend.InfoFile | src/load_atoms/backend/__init__.py:77 | The manifest is `<id>.yaml` inside the dataset's folder |
| StorageBackend.InfoUrl | src/load_atoms/backend/__init__.py:82 | The manifest's URL sits directly under the base URL, not in the dataset's own directory where `description_file_url` looks |
| StorageBackend.Target | src/load_atoms/backend/internet.py:79-80 | A download into a directory lands at `directory / Path(url).name` |
| StorageBackend.AfterLastSlashOfSuffix | src/load_atoms/backend/internet.py:80 | After a base ending in `/`, the last component of `base + name` is the slash-free name itself |
| StorageBackend.TargetOfFileUrl | src/load_atoms/backend/internet.py:79-80 | A file fetched from `base + name` lands at `directory / name` when the base ends in `/` and the name is a plain non-empty file name |
| StorageBackend.ReadInfo | src/load_atoms/backend/__init__.py:87 | A manifest that reads comes from a file that exists and parses, and is the record those contents build |
| StorageBackend.Missing | src/load_atoms/backend/__init__.py:90-94 | The missing files are exactly the listed files with nothing at `folder / file`, kept in manifest order |
| StorageBackend.NothingMissing | src/load_atoms/backend/__init__.py:90-94 | A file already present is never missing, whatever its contents |
| StorageBackend.RemoteUrlsAsWritten | src/load_atoms/backend/__init__.py:95 | As written, `info.url_root + file` raises a TypeError exactly when `url_root` is missing and some file is missing. Otherwise each URL is `url_root` followed by the file name |
| StorageBackend.RemoteUrls | src/load_atoms/shared/dataset_info.py:81-86 | Each missing file's URL is the manifest's base URL followed by the file name, in order |
| StorageBackend.RemoteUrlsAgree | src/load_atoms/shared/dataset_info.py:81-86 | Each missing listed file gets the URL that `remote_file_locations` gives it. With a non-empty `url_root` the code as written computes the same URLs |
| StorageBackend.UrlRootMissingCrashes | src/load_atoms/backend/__init__.py:95 | A manifest without `url_root` and one file not yet on disk: the code as written fails before downloading anything, while the base URL names the file under the dataset's directory |
| StorageBackend.Jobs | src/load_atoms/backend/internet.py:42-57 | `download_all` starts one download per URL, in order, each landing at that URL's target with what the server answered |
| StorageBackend.WriteServed | src/load_atoms/backend/internet.py:91-94 | Downloading never removes a path and never turns a file into something else |
| StorageBackend.WriteServedServed | src/load_atoms/backend/internet.py:91-94 | Every answered download ends up as a file at its path |
| StorageBackend.WriteServedKeeps | src/load_atoms/backend/internet.py:54-57 | A path that no download targets keeps what it held |
| StorageBackend.WriteServedFresh | src/load_atoms/backend/internet.py:54-57 | Downloads that all land on fresh paths leave old contents alone, and every answered one is then a file |
| StorageBackend.WriteServedAdds | src/load_atoms/backend/internet.py:54-57 | A path that appears is where some answered download landed |
| StorageBackend.SingleDownload | src/load_atoms/backend/internet.py:45-47 | A single URL is one download straight to its target. A failure writes nothing |
| StorageBackend.Failures | src/load_atoms/backend/internet.py:59-64 | The failures are exactly the URLs that could not be fetched, and there are none exactly when every URL serves |
| StorageBackend.DownloadError | src/load_atoms/backend/internet.py:30-67 | It succeeds exactly when every URL serves. With one URL, that URL's own error propagates. With several, every URL is attempted and one error lists the ones that failed |
| StorageBackend.Validate | src/load_atoms/backend/__init__.py:98-105 | The check of the fetched files succeeds exactly when every one is there. It warns at most once per file, and only about fetched files |
| StorageBackend.ValidateWarnsExactly | src/load_atoms/backend/__init__.py:98-105 | When every fetched file is there, it warns about exactly the ones whose contents do not match their checksum |
| StorageBackend.Prepared | src/load_atoms/backend/__init__.py:75-87 | The dataset's folder is created and a missing manifest is fetched. A missing manifest that cannot be fetched makes the id unknown. Otherwise the manifest is read, and nothing but those two paths appears |
| StorageBackend.FetchFiles | src/load_atoms/backend/__init__.py:89-105 | The missing files are fetched from their URLs. A failed download raises with no warnings. Otherwise the fetched files are checked |
| StorageBackend.DownloadMissing | src/load_atoms/backend/__init__.py:65-105 | A file where the dataset's folder should be raises FileExistsError and changes nothing. Otherwise nothing on disk disappears, and no file becomes a directory |
| StorageBackend.WarningsOnlyForFetched | src/load_atoms/backend/__init__.py:89-105 | A warning only ever names a file that was not on disk before the call. A file already there is never compared with its checksum |
| StorageBackend.FetchFilesWarnOnMissing | src/load_atoms/backend/__init__.py:89-105 | The file step warns only about files that were missing |
| StorageBackend.ServedFilesChecked | src/load_atoms/backend/__init__.py:89-105 | When the manifest reads and every missing file is served, the call succeeds. Its warnings are exactly the missing files whose fetched contents do not match |
| StorageBackend.PresentDatasetUntouched | src/load_atoms/backend/__init__.py:75-105 | A dataset whose folder, manifest and listed files are all on disk is left as it is and raises nothing. No download happens and no file is checked, so a corrupt file goes unnoticed |
| StorageBackend.DownloadsLandOnMissing | src/load_atoms/backend/__init__.py:90-96 | With a base ending in `/` and plain file names, every download lands on the missing file's own path. Nothing on disk is overwritten, and when every download succeeds each missing file is then there |
| StorageBackend.MissingTargets | src/load_atoms/backend/__init__.py:90-96 | The download of each missing file lands on that file's own path, which is not on disk |
| StorageBackend.ReadOne | src/load_atoms/backend/__init__.py:128-129 | A file that reads exists |
| StorageBackend.ReadAll | src/load_atoms/backend/__init__.py:126-129 | A successful read means every listed file exists |
| StorageBackend.ReadAllAppend | src/load_atoms/backend/__init__.py:126-129 | Nothing read gives nothing. Reading two lists reads the first, then the second, keeping the structures in that order |
| StorageBackend.ReadAllOne | src/load_atoms/backend/__init__.py:127-129 | Reading one file is reading it with `read` |
| StorageBackend.LoadDataset | src/load_atoms/backend/__init__.py:107-131 | `load_dataset` returns the manifest on disk and the structures of every listed file, read in manifest order. A manifest that does not read fails it |
| StorageBackend.GetStructuresFor | src/load_atoms/backend/__init__.py:15-41 | `get_structures_for` first fetches what is missing, whose error stops it, then loads from disk. On success every listed file is on disk |
| StorageBackend.PresentDatasetRead | src/load_atoms/backend/__init__.py:15-41 | A dataset already fully on disk is read from disk. Nothing is written, nothing is warned about, and the files are read in manifest order |
| FileBackend.CheckFileContents | src/load_atoms/backend.py:59-67 | The check passes exactly when the path is a file whose contents match the checksum, and then returns true. A mismatch raises CorruptionError with the detail naming the path, which the constructor wraps as the path of `File ... exists`; a path that is not a file cannot be opened |
| FileBackend.CorruptionTextNamesPath | src/load_atoms/backend.py:20-25 | The message of a corruption found at a path begins `File The dataset on disk at <path> has been corrupted.`, the detail sentence wrapped inside the constructor's own |
| FileBackend.CheckAgainstOwnChecksum | src/load_atoms/backend.py:59-67 | A file passes the check against its own checksum and fails against any other |
| FileBackend.Tasks | src/load_atoms/backend.py:39-43 | Each missing file gets one download of `url_root + file` saved to `root / file`, in order |
| FileBackend.DownloadAll | src/load_atoms/download.py:44-103 | With no tasks it returns at once. Otherwise it returns exactly when the root is not a file and every download succeeds, since a failed download kills its worker and the wait for the queue never ends |
| FileBackend.LoadAll | src/load_atoms/backend.py:46-56 | On success every listed file is there and matches its checksum |
| FileBackend.LoadAllAppend | src/load_atoms/backend.py:48-54 | Loading two lists loads the first, then the second, keeping the structures in that order, and stops at the first failure |
| FileBackend.LoadAllOne | src/load_atoms/backend.py:51-54 | One file is one check and one read |
| FileBackend.GetStructures | src/load_atoms/backend.py:28-56 | It blocks exactly when downloading the missing files blocks. Otherwise every listed file is checked and read from what is then on disk |
| FileBackend.DefaultRoot | src/load_atoms/backend.py:33-35 | Without a root, the default directory is used |
| FileBackend.TasksLandFresh | src/load_atoms/backend.py:39-43 | The files a download writes are absent before it, once the root directory exists |
| FileBackend.DownloadAllWrites | src/load_atoms/download.py:106-136 | A download that returns wrote every file it was given, provided none of them was there before |
| FileBackend.MissingFilesFetched | src/load_atoms/backend.py:38-44 | A call that returns has fetched every missing file |
| FileBackend.FailedDownloadBlocks | src/load_atoms/download.py:75-123 | A missing file whose URL fails makes the call block |
| FileBackend.CorruptFileRejected | src/load_atoms/backend.py:39-52 | A listed file already on disk with the wrong contents is never accepted. It is not downloaded again, and the check rejects it |
| Validation.MakeRequired | src/load_atoms/validation.py:56-61 | `Required(field, v)` keeps the field, and turns a type shorthand into its `IsInstance` rule |
| Validation.MakeOptional | src/load_atoms/validation.py:77-82 | `Optional(field, v)` keeps the field, and turns a type shorthand into its `IsInstance` rule |
| Validation.Eval | src/load_atoms/validation.py:24-141 | Calling any rule either returns a verdict or raises a TypeError, and raises nothing else |
| Validation.EvalAll | src/load_atoms/validation.py:14-19 | `is_valid` raises nothing but a TypeError from one of its rules |
| Validation.EvalAny | src/load_atoms/validation.py:101-105 | `OneOf` raises nothing but a TypeError from one of its options |
| Validation.EvalEach | src/load_atoms/validation.py:43-49 | `ListOf` raises nothing but a TypeError from its item rule |
| Validation.EvalBibTeX | src/load_atoms/validation.py:123-127 | `IsBibTeX()` on a string returns whether its stripped text starts with `@` and ends with `}` |
| Values.ContainsKey | src/load_atoms/validation.py:64-85 | `field in data` raises TypeError exactly for data that is not a dictionary, list or string. On a dictionary it tests whether the key is present |
| Values.GetItem | src/load_atoms/validation.py:67-88 | `data[field]` succeeds exactly on a dictionary holding the key and gives its value. A missing key raises KeyError and anything but a dictionary raises TypeError |
| Values.NumbersCompareByValue | src/load_atoms/validation.py:115-116 | The `==` that `In` uses compares numbers by value whatever their spelling: `1 == 1.0`, `0.1 == 0.10`, `1000.0 == 1e3` and `True == 1.0`, while `0.5 != 0` |
| Descriptions.NotCallableRaises | src/load_atoms/database.py:32 | A present field whose validator is a list such as `[int]`, which cannot be called, raises |
| Descriptions.RulesOn | src/load_atoms/database.py:19-41 | Fields meet the blueprint exactly when each of its eight rules returns true on their dictionary |
| AtomsDatasets.LoadInMemory | src/load_atoms/atoms_dataset.py:454-459 | Loading a pickled in-memory dataset gives an in-memory dataset |
| AtomsDatasets.ViewAt | src/load_atoms/atoms_dataset.py:408-428 | The view a list of in-range positions builds is again a well-formed dataset |
| LogicDatasets.Iter | src/load_atoms/logic/__init__.py:113-114 | Iterating a dataset yields as many structures as its length |

## Left out

Call sites that do not match their callees. The model follows the evident
intent at each one.

- DatabaseBackend.FetchIfAbsent: `src/load_atoms/database/backend.py:77-81` and `:117-121` pass a third `progress` argument, but `download(url, local_path)` in `src/load_atoms/database/internet.py:48` takes two. As written, the TypeError is caught and re-raised as UnknownDatasetException, so a manifest or importer that is not yet on disk always makes the id unknown. The model downloads.
- Importers.FetchMissing: `src/load_atoms/database/importer.py:51` makes the same three-argument call. The model downloads.
- StrictImporters.DownloadFile: `src/load_atoms/database/processing/importer.py:38` makes the same three-argument call. The model downloads.
- Importers.GetDataset: `src/load_atoms/database/importer.py:140` instantiates the abstract `AtomsDataset`. The model builds an in-memory dataset.
- StrictImporters.GetDataset: `src/load_atoms/database/processing/importer.py:99` makes the same call. The model builds an in-memory dataset.
- DatabaseBackend.LoadCached: `src/load_atoms/database/backend.py:50` calls the abstract classmethod `AtomsDataset.load`, whose body is `pass`, so it returns None. The model reads the cache file with the in-memory loader.
- DatabaseBackend.SaveCached: `src/load_atoms/database/backend.py:58` calls `dataset.save(path)` without the `structures` argument that `src/load_atoms/atoms_dataset.py:98-104` requires, which raises TypeError. The model saves the dataset's structures and description in the in-memory format.
- StorageBackend.ReadInfo: `src/load_atoms/backend/__init__.py:87` and `:125` call `DatasetInfo.from_file`. `src/load_atoms/shared/dataset_info.py:73` defines only `from_yaml_file`, so the call raises AttributeError. The model reads the manifest with `from_yaml_file`.
- StorageBackend.DownloadMissing: fetches from `RemoteUrls`, the base URL of `remote_file_locations`, not from the as-written `url_root + file` (`src/load_atoms/backend/__init__.py:95`); see "## Findings".
- FileBackend.GetStructures: `src/load_atoms/backend.py:17` imports `DEFAULT_DOWNLOAD_DIR`, which `src/load_atoms/util.py` does not define. The default directory is therefore the `defaultDir` parameter.
- FileBackend.GetStructures: `src/load_atoms/backend.py:39-49` reads `dataset.files` and `dataset.url_root`. The declared `DatasetDescription` (`src/load_atoms/database.py:44-55`) has `filename` and `filenames` and neither of these, so every call raises AttributeError. The model assumes the record carries a `files` map from name to hash and a `url_root`.
- FileBackend.DefaultRoot: the default directory is a parameter, for the same reason.
- Descriptions.BlueprintArguments: `src/load_atoms/database.py:7-15` imports `AnyOf`, `Blueprint` and `IsIn` from `load_atoms.validation`, which defines none of them (`src/load_atoms/validation.py`), so importing the module raises ImportError. The model reads `Blueprint` as `Validator`, `IsIn` as `In` and `AnyOf` as `OneOf`.
- LogicDatasets.UsageInfo: `src/load_atoms/logic/__init__.py:11` imports `frontend_url`, `intersection`, `is_numpy` and `union` from `load_atoms.shared`, whose `__init__.py` defines none of them, so importing the module raises ImportError. The model takes `frontend_url` from `load_atoms.utils` and gives it the dataset's name, where `:196` passes the whole DatasetInfo.
- LogicDatasets.GetItem: the same failing import; `is_numpy` (`src/load_atoms/logic/__init__.py:102`) is taken to be the numpy-array test of the older container.
- Manipulations.FilterBy: the `AtomsDataset` that `src/load_atoms/manipulations.py:8` imports has no `from_structures` (`:68`). The model uses that class's constructor.
- Manipulations.CrossValidateSplit: the same missing `from_structures` (`src/load_atoms/manipulations.py:127`). The model uses the constructor.

Contracts stated more narrowly than the source:

- Utils.FracOf: a fraction is an exact non-negative rational, so `int(f * len)` is exact truncation. Double rounding of `f * len`, and negative fractions, are not modelled.
- Utils.SplitSizes: sizes come from `FracOf`, so double rounding is not modelled here either.
- Utils.SplitSpec: a `splits` list is either all counts or all non-negative fractions. Negative sizes, and lists mixing `int` and `float`, are not modelled.
- Values.PyEq: a float is an exact decimal with its spelling. NaN and infinities are not modelled. Two decimals that round to the same double compare unequal here, though Python finds them equal.
- Manifests.ReadInt: only an `int` or a `bool` is accepted. Pydantic's lax coercion (`"3"` or `3.0` to `3`) is not modelled. Construction stops at the first invalid field, where pydantic reports every invalid field in one ValidationError; which fields are valid is the same.
- AtomsDatasets.InfoKeys: the shared `info` keys come out sorted. Python's set iteration order is not modelled, so an error message that lists keys may name them in another order.
- AtomsDatasets.RandomSplitPositions: a missing `keep_ratio` key raises KeyError here as in the source. Only the order of the keys in the message may differ, as for `InfoKeys`.
- Files.Join: appends its name as one component. `Files.JoinPath` models pathlib's `/` for names holding '/', "" or ".", and the processing steps use it; the back ends (StorageBackend, FileBackend, Importers, DatabaseBackend) still join manifest file names, dataset ids and URL file names with `Join`, so a file name such as `"a/b.xyz"` there is one component rather than two.
- DatabaseEntries.ImporterFileStem: lowers ASCII letters only. Python's `str.lower` also lowers other scripts, and can change the length (`"İ".lower()` has two characters); ids are ASCII in practice. The same holds for DatabaseEntries.ImporterUrlSharedIffStem, which is stated on this stem.
- AtomsDatasets.ReadInfo: a column is the list of the structures' Python values. numpy's conversion of the column into one array is not modelled: a column mixing strings and numbers becomes strings there (`np.array([1, "1"])` holds `'1'` twice).
- AtomsDatasets.KeepRatioFolds: groups by `Values.KeyOf`, numbers by value as a dictionary does (`1`, `1.0` and `True` together). List and dictionary values, which Python cannot hash (TypeError), are grouped structurally here, and the string coercion of mixed columns is not modelled. AtomsDatasets.RandomSplitPositions groups the same way.
- Processing.DefaultProcessing: the YAML parser is a parameter, and the two steps are promised only when the default text reads back as written, which a name of printable ASCII without `"` or `\` guarantees. The source puts the name between double quotes unescaped (`src/load_atoms/database/processing/__init__.py:85-89`). A `"` in the name closes the scalar early and usually makes the parse raise; a `\` starts an escape sequence that is decoded (`\t`) or raises (`\q`). The model does not decode these. The same holds for Processing.DefaultParses and Processing.DefaultProcessingReads.
- Processing.SelectedFiles: the matches of a pattern are sorted as strings of their path relative to the root. pathlib sorts paths by their components, so `a-b` and `a/b` can come out in the other order.
- Processing.Construct: a `file`, `files` or `pattern` argument that is neither `None` nor a string (a list of strings for `files`) is rejected with TypeError when the step is built, and so is a `Rename` value that is not a string. The source stores such a value and fails only when the step runs, if at all.

Not modelled at all:

- Printing: `print_info_for`, `summarise`, the `__repr__` methods and the `rich` progress display. They only produce text for the terminal.
- Concurrency: the thread pools, the async download pools and locks. Each is modelled as its sequential effect.
- FileBackend.DownloadAll: a worker that fails in the thread pool blocks the caller forever. The model reports this as the `Blocked` outcome instead of not returning.
- Storage formats: the pickle and LMDB encodings are abstracted as values that round-trip.
- I/O effects are parameters: the network, the SHA-256 digest, the YAML parser, the module importer, random seeds (a permutation or shuffler) and the environment.

## Findings

| source | as written | input that shows it | evidently intended | confidence | as-written member | corrected member |
|---|---|---|---|---|---|---|
| src/load_atoms/utils.py:215-247 | `FrozenDict` overrides the named mutators but not `__ior__`, so `fd \|= other` changes the dictionary | `fd = freeze_dict({"a": 1}); fd \|= {"b": 2}` leaves `fd` holding `"b"` | every modification raises ValueError and the contents never change | not executed | Mappings.InPlaceOrModifies | Mappings.FrozenDictUnchanged |
| src/load_atoms/database.py:32, src/load_atoms/database.py:57-59 | `__post_init__` validates `asdict(self)`, which always holds the key `representative_structures`, and its validator `[int]` is a list, which cannot be called | any `DatasetDescription(...)` whose earlier fields pass raises TypeError; as written the module's failing import (see "## Left out") raises first, so this is the behaviour once that import is repaired | a description whose fields meet the blueprint is constructed | not executed | Descriptions.AsWrittenNeverConstructs | Descriptions.ConstructSucceedsIff |
| src/load_atoms/backend/__init__.py:95 | missing files are fetched from `info.url_root + file`, but `url_root` is optional and defaults to None | a manifest without `url_root` and a missing file raises TypeError before anything is downloaded | the files are fetched from the base URL of `remote_file_locations` | not executed | StorageBackend.UrlRootMissingCrashes | StorageBackend.RemoteUrlsAgree |
