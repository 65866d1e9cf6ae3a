# vcvcat in Dafny

`vcvcat.py` joins two VCV Rack patch files into one. Both patches must come
from the same Rack version. The tool reports top-level keys it does not
understand. The second patch's modules are moved below the bottom row of the
first patch. Every id of the second patch that collides with an id of the
first is renumbered past the largest id of either patch, and the neighbour and
cable-end references are rewritten to match. The output holds the first
patch's version and the two module lists and two cable lists, the first
patch's entries first.

This project models that merge on parsed documents and proves what it
guarantees.

- `patch.dfy` (module `Patch`): documents, modules, cables, optional
  references (`Ref`), the id space and the well-formedness predicates.
- `schema.dfy` (`Schema`): the unknown-key filter of `warn_keys`.
- `bounds.dfy` (`Bounds`): the `minmax` bounding box. `ComputeBox` is the
  loop, proved equal to `BoundingBox`, whose bounds are tight.
- `offset.dfy` (`Offset`): the row offset applied to the second patch.
- `collisions.dfy` (`Collisions`): the `ids` loops, the sorted
  intersection, the maximum of the union, the remap table and its loop, and
  the loops that rewrite ids and references.
- `merge.dfy` (`Merge`): `main` as a specification function `Merged` and as
  the method `MergePatches`, which takes the source's steps in the source's
  order. It computes the warnings with the function `KeyWarnings` rather
  than a loop, and it tests the second module list for emptiness rather
  than building `mm2`. The in-place update of the second document is the
  method `Relocate`.
- `properties.dfy` (`MergeProperties`): theorems about `Merged`.
- `scenario.dfy` (`MergeScenario`): a worked merge with one colliding id.

`bye` after a version mismatch becomes the error `VersionMismatch`. The
`IndexError` that `minmax` raises on a patch without modules becomes
`NoModules(First)` or `NoModules(Second)`. The first patch is checked first,
as `mm1` is built before `mm2`. Warnings are returned as data and are not
printed.

## Model

| member | source | states |
|---|---|---|
| Patch.ModuleIdsAppend | vcvcat.py:109 | the module ids of a concatenation are the union of the ids of the parts |
| Patch.CableIdsAppend | vcvcat.py:110 | the cable ids of a concatenation are the union of the ids of the parts |
| Schema.UnknownKeys | vcvcat.py:57-62 | the result holds each key outside `version`, `modules`, `cables` exactly as often as the input does, and no known key; a key is in the result iff it is in the input and unknown |
| Schema.UnknownKeysAppend | vcvcat.py:59-61 | the unknown keys of a concatenation are those of the first part followed by those of the second, so warnings follow the document's key order |
| Schema.UnknownKeysSingle | vcvcat.py:60 | a single key is flagged exactly when it is not one of the three known keys |
| Schema.UnknownKeysOnce | vcvcat.py:59-61 | keys that are distinct, as a dictionary's keys are, give each warning once |
| Bounds.BoundingBox | vcvcat.py:39-47 | the box of the first module, widened by each further module in turn; it has no contract of its own, `BoundingBoxTight` and `BoxUnique` state what it is |
| Bounds.BoundingBoxTight | vcvcat.py:39-47 | for a non-empty module list, every module's row and column lie within the box, and each of the four bounds is the row or column of some module |
| Bounds.BoxUnique | vcvcat.py:39-47 | a box that encloses the modules and attains all four bounds is the bounding box |
| Bounds.ComputeBox | vcvcat.py:39-47 | the loop over the modules, updating the four bounds in source order, computes the bounding box, which encloses and is attained |
| Offset.Shifted | vcvcat.py:83-84 | the offset as a value; it has no contract of its own, `ShiftRows` computes it and `ShiftKeepsIds` and `ShiftedBelow` state its properties |
| Offset.ShiftRows | vcvcat.py:83-84 | the offset loop adds exactly `delta` to every module's row and changes nothing else, for the same number of modules |
| Offset.ShiftKeepsIds | vcvcat.py:83-84 | the offset does not change the module ids |
| Offset.ShiftedPast | vcvcat.py:83-84 | rows that are all non-negative, moved down by one past a bound on the first list's rows, lie strictly below every row of the first list |
| Offset.ShiftedBelow | vcvcat.py:81-84 | offsetting by `maxrow + 1` of the first list puts every non-negative row of the second strictly below every row of the first |
| Offset.NegativeRowOverlaps | vcvcat.py:83-84 | a second-patch module on row -1, offset below a first patch whose only module is on row 0, lands on that same row |
| Patch.IdSpace | vcvcat.py:49-55 | the id set of `ids` as a value, module ids and cable ids in one set; no contract of its own, `CollectIds` computes it and `PreparedIds` and `MergedIds` state its properties |
| Collisions.CollectIds | vcvcat.py:49-55 | the two loops of `ids` collect exactly every module id and every cable id into one set |
| Collisions.SetMax | vcvcat.py:89 | `max` of a non-empty set is in the set and is at least every element |
| Collisions.SortedElements | vcvcat.py:88 | `sorted` of a set is strictly increasing, has exactly the set's elements and has as many entries as the set |
| Collisions.ReplaceTable | vcvcat.py:90-93 | the remap table's keys are exactly the colliding ids, and every value lies in `(start, start + count]` |
| Collisions.BuildReplace | vcvcat.py:90-93 | the loop that increments `maxid` and fills `replace` builds the remap table |
| Collisions.ReplaceTableAt | vcvcat.py:91-93 | in sorted order, the `i`-th colliding id is mapped to `start + i + 1` |
| Collisions.ReplaceTableOrdered | vcvcat.py:88-93 | when the colliding ids are sorted, the table is strictly increasing in its keys, hence injective |
| Collisions.Resolve | vcvcat.py:86-93 | the colliding ids are the intersection of the id sets, sorted and each once; the table is defined exactly on them; every new id exceeds every id of either patch |
| Collisions.ResolveOrdered | vcvcat.py:88-93 | the table built from the two id sets is increasing |
| Collisions.ResolveFresh | vcvcat.py:86-105 | every rewritten id of the second patch is outside the first patch's ids; a colliding id goes outside both id sets; a non-colliding id is left alone; the rewrite is injective on the second patch's ids |
| Collisions.InjectiveImage | vcvcat.py:95-105 | a rewrite that is injective on a set keeps the set's size |
| Collisions.ImageUnion | vcvcat.py:95-105 | rewriting a union of ids is the union of the rewritten parts |
| Collisions.DisjointUnionSize | vcvcat.py:109-110 | the union of two disjoint id sets has the sum of their sizes |
| Collisions.RemapModules | vcvcat.py:95-99 | the loop over modules replaces `id`, `leftModuleId` and `rightModuleId` by their table entry exactly when the value collides; absent references stay absent; row, column and all other fields are unchanged |
| Collisions.RemapCables | vcvcat.py:101-105 | the loop over cables does the same for `id`, `inputModuleId` and `outputModuleId` |
| Collisions.Renaming.Apply | vcvcat.py:98-99 | one id as the rewrite leaves it, the table entry for a colliding id and the id itself otherwise; no contract of its own, `ResolveFresh` and `InjectiveImage` state its properties |
| Collisions.Renaming.ApplyRef | vcvcat.py:97-99 | one optional reference field as the rewrite leaves it, an absent field stays absent; no contract of its own, `RemapModules` and `RemapCables` state it field by field |
| Collisions.RemapModule | vcvcat.py:96-99 | one module rewritten in `id`, `leftModuleId` and `rightModuleId`; no contract of its own, `RemapModules` states it field by field |
| Collisions.RemapCable | vcvcat.py:102-105 | one cable rewritten in `id`, `inputModuleId` and `outputModuleId`; no contract of its own, `RemapCables` states it field by field |
| Collisions.RemappedModules | vcvcat.py:95-99 | the module rewrite as a value; no contract of its own, `RemapModules` computes it and `RemappedIds`, `RemappedRefs` and `RemappedBelow` state its properties |
| Collisions.RemappedCables | vcvcat.py:101-105 | the cable rewrite as a value; no contract of its own, `RemapCables` computes it and `RemappedIds` and `RemappedRefs` state its properties |
| Collisions.RemappedIds | vcvcat.py:95-105 | the ids after the rewrite are the rewritten ids |
| Merge.KeyWarnings | vcvcat.py:57-62 | one warning per unknown key of the document, as many as `UnknownKeys` yields, each tagged with that document and naming one of its unknown keys |
| Merge.Prepared | vcvcat.py:83-105 | the second document after the offset and the rewrite keeps its version, its keys and the number of its modules and cables |
| Merge.Concatenated | vcvcat.py:107-110 | the output carries the first document's version and as many modules and cables as the two inputs together |
| Merge.Merged | vcvcat.py:76-110 | the merge fails exactly when the versions differ or a module list is empty; after a version mismatch nothing is reported |
| Merge.Renamer | vcvcat.py:86-93 | the remap table is defined on every colliding id |
| Merge.MergePatches | vcvcat.py:76-110 | `main`, step by step, returns exactly the warnings and the result of `Merged` |
| Merge.Relocate | vcvcat.py:83-105 | the in-place offset and rewrite of the second document produce `Prepared` |
| MergeProperties.VersionGuard | vcvcat.py:76-77 | the merge fails with `VersionMismatch` iff the versions differ, and then nothing is reported |
| MergeProperties.MergeFails | vcvcat.py:76-82 | the merge fails iff the versions differ or either patch has no modules; an empty module list in the first patch is reported first |
| MergeProperties.KeyWarningsExact | vcvcat.py:57-62 | a warning is issued for a document exactly for its unknown keys |
| MergeProperties.WarningsReported | vcvcat.py:78-79 | with equal versions, the warnings are exactly the unknown keys of the first patch and of the second |
| MergeProperties.PreparedReadsLists | vcvcat.py:81-105 | the relocation reads only the module and cable lists of the two patches |
| MergeProperties.WarningsHarmless | vcvcat.py:57-62 | the merge result does not depend on the top-level keys: the key check only warns |
| MergeProperties.PreparedShape | vcvcat.py:83-105 | in the relocated second patch, every module keeps its count, column and other fields, has its row moved by `maxrow + 1`, and has its id and references rewritten; every cable has its id and ends rewritten |
| MergeProperties.PreparedIds | vcvcat.py:86-105 | the relocated second patch's ids are the rewritten ids; none is an id of the first patch; there are as many as before |
| MergeProperties.MergedOutput | vcvcat.py:107-110 | a successful merge outputs the first patch followed by the relocated second patch |
| MergeProperties.MergedShape | vcvcat.py:107-110 | the output has the first patch's version and no unknown key; its module and cable counts are the sums of the inputs'; the first patch's modules and cables come first, unchanged |
| MergeProperties.MergedOffset | vcvcat.py:83-84 | every module from the second patch has its row moved by the first patch's `maxrow + 1` and its column unchanged |
| MergeProperties.RemappedBelow | vcvcat.py:95-99 | renumbering does not move modules between rows |
| MergeProperties.PreparedBelow | vcvcat.py:81-99 | when the second patch has no negative row, its relocated modules lie strictly below the first patch's |
| MergeProperties.ConcatenatedBelow | vcvcat.py:109 | appending modules that lie below keeps every earlier module above every later one |
| MergeProperties.MergedNonOverlap | vcvcat.py:81-110 | when the second patch has no negative row, every output module from it lies strictly below every output module from the first |
| MergeProperties.ConcatenatedUnique | vcvcat.py:107-110 | joining two documents with unique ids and disjoint id spaces gives unique ids |
| MergeProperties.PreparedUnique | vcvcat.py:95-105 | relocating a patch with unique ids keeps its ids unique |
| MergeProperties.MergedIds | vcvcat.py:86-110 | the output's id space is the first patch's ids joined with the rewritten ids of the second; the two parts are disjoint; it has as many ids as the two inputs together |
| MergeProperties.MergedUnique | vcvcat.py:86-110 | if each patch has unique ids, so has the output |
| MergeProperties.ConcatenatedRefs | vcvcat.py:107-110 | joining two documents whose references resolve gives one whose references resolve |
| MergeProperties.RemappedRefs | vcvcat.py:95-105 | rewriting ids and references through one table carries each resolved reference into the rewritten ids |
| MergeProperties.ShiftedRefs | vcvcat.py:83-84 | the offset leaves references alone |
| MergeProperties.PreparedRefs | vcvcat.py:83-105 | references of the second patch that named its modules still do after relocation |
| MergeProperties.MergedRefs | vcvcat.py:83-110 | if every neighbour and cable-end reference of each patch names a module of that patch, every reference of the output names a module of the output |
| MergeProperties.IdleRenaming | vcvcat.py:95-105 | with no colliding ids the rewrite changes no module and no cable |
| MergeProperties.RenamerIdle | vcvcat.py:86-93 | with disjoint id spaces the remap table is empty |
| MergeProperties.PreparedNoRemap | vcvcat.py:83-105 | with no colliding ids the second patch is only moved |
| MergeProperties.NoCollisionNoRemap | vcvcat.py:83-110 | with disjoint id spaces the table is empty, the output modules are the first patch's followed by the second's offset by `maxrow + 1`, and the cables are the two lists joined unchanged |
| MergeScenario.ScenarioIds | vcvcat.py:86-88 | the example patches have id spaces {1, 2} and {2, 5, 7}, sharing only 2 |
| MergeScenario.ScenarioRenamer | vcvcat.py:88-93 | in the example only id 2 collides and it becomes 8 |
| MergeScenario.ScenarioMerge | vcvcat.py:76-110 | in the example, the output's module ids are 1, 2, 8, 5, the second patch's rows become 4 and 5, and its cable's input end is module 8 and its output end module 5 |

## Left out

- Command-line handling, help text, `bye` and `sys.exit` (vcvcat.py:32-37,
  65-69). They are the command-line surface. `bye` is the error value
  `VersionMismatch`.
- Loading and closing the input files and writing the output with
  exclusive create, indentation and sorted keys (vcvcat.py:71-74, 111-112).
  This is file and JSON I/O. The model takes two parsed documents and returns
  the merged one. A failed merge returns no document, which stands for
  nothing being written.
- `eprint` to standard error (vcvcat.py:29-30). Warnings are returned as
  `Warning` values carrying the document and the key. The file name and the
  message text are not modelled.
- Open-ended JSON objects. A module has `id`, `pos` (as `col`, `row`),
  optional `leftModuleId` and `rightModuleId`, and an opaque `rest`. A cable
  has `id`, optional `inputModuleId` and `outputModuleId`, and `rest`.
- Ids and positions are modelled as integers. The source also accepts other
  JSON values there. A float id goes through `set.add`, `sorted`, `max`
  and `maxid += 1` (vcvcat.py:53, 55, 88, 89, 92). A float position goes
  through `min`, `max` and `+=` (vcvcat.py:44-47, 84). String ids go
  through only when every id of both patches is a string and none
  collides; a colliding string id fails at `maxid += 1` (vcvcat.py:92),
  and a mix of string and numeric ids makes `sorted` (vcvcat.py:88) or
  `max` (vcvcat.py:89) raise `TypeError`. Such values are out of scope.
- Missing fields. A `Document` always has a version, a module list and a
  cable list. Its `keys` field lists the top-level keys for the warning
  check only and is independent of those three fields. A document that
  lacks `version`, `modules` or `cables` makes the source raise `KeyError`
  (vcvcat.py:76, 41, 54). So does a module without `pos`: at vcvcat.py:41
  for the first module of a patch, at vcvcat.py:44 for any other (for the
  second patch through `mm2` at vcvcat.py:82). So does a module without
  `id` (vcvcat.py:53) or a cable without `id` (vcvcat.py:55). The model
  does not represent that failure: a `Document` whose `keys` omit a known
  key still merges.
- The inner `for key in [...]` loops of the rewrite (vcvcat.py:96, 102) are
  unrolled into three conditionals per element.
- The in-place update of the second document: its module and cable lists
  are sequence values that the methods update element by element. The
  model does not capture aliasing between the documents.
- `minmax` is an object whose fields are written only while it is built. It
  is modelled as the record `Box` returned by `ComputeBox`.
- `mm2` (vcvcat.py:82) is computed but never used. It only matters for its
  failure on an empty module list, which `Merged` reports as
  `NoModules(Second)`.
- MergeProperties.MergedNonOverlap: the separation of the two patches is
  proved only when the second patch has no module on a negative row. The
  offset `maxrow + 1` ignores the second patch's smallest row, so a negative
  row can collide with a row of the first patch. `Offset.NegativeRowOverlaps`
  gives such an input.
