/**
 * The merge performed by `main`: the version guard, the schema warnings, the
 * vertical offset, the identifier remap and the concatenation of the two
 * documents into the output document.
 */
module Merge {
  import opened Wrappers
  import opened Patch
  import opened Schema
  import opened Bounds
  import opened Offset
  import opened Collisions

  /** A diagnostic: an unknown top-level key in one of the inputs. */
  datatype Warning = UnknownKey(doc: Which, key: string)

  /** Why a merge is abandoned before anything is written. `NoModules` is
      the failure of `minmax` on a document without modules. */
  datatype MergeError = VersionMismatch | NoModules(doc: Which)

  /** What a merge produces: the warnings it emitted, in order, and either
      the output document or the error it stopped with. */
  datatype Run = Run(warnings: seq<Warning>, result: Result<Document, MergeError>)

  /** `warn_keys`: one warning per unknown key of the document, in order. */
  function KeyWarnings(doc: Which, keys: seq<string>): (r: seq<Warning>)
    ensures |r| == |UnknownKeys(keys)|
    ensures forall w :: w in r ==> w.doc == doc && w.key in keys && w.key !in KnownKeys
  {
    var unknown := UnknownKeys(keys);
    seq(|unknown|, i requires 0 <= i < |unknown| => UnknownKey(doc, unknown[i]))
  }

  /** The remap table `main` builds for two documents. */
  function Renamer(in1: Document, in2: Document): (r: Renaming)
    requires |in1.modules| > 0
    ensures r.Covers()
  {
    assert in1.modules[0] in in1.modules;
    assert in1.modules[0].id in IdSpace(in1);
    Resolve(IdSpace(in1), IdSpace(in2))
  }

  /** The second document as `main` leaves it: moved below the first one
      and with its colliding ids remapped. */
  function Prepared(in1: Document, in2: Document): (p: Document)
    requires |in1.modules| > 0
    ensures |p.modules| == |in2.modules| && |p.cables| == |in2.cables|
    ensures p.version == in2.version && p.keys == in2.keys
  {
    var r := Renamer(in1, in2);
    var moved := Shifted(in2.modules, BoundingBox(in1.modules).maxRow + 1);
    in2.(modules := RemappedModules(r, moved), cables := RemappedCables(r, in2.cables))
  }

  /** The output document: the first document's version, and each list of
      the first document followed by that of the second. Only the three known
      keys are written. */
  function Concatenated(d1: Document, d2: Document): (out: Document)
    ensures out.version == d1.version
    ensures |out.modules| == |d1.modules| + |d2.modules| && |out.cables| == |d1.cables| + |d2.cables|
  {
    Document(KnownKeys, d1.version, d1.modules + d2.modules, d1.cables + d2.cables)
  }

  /** The whole merge, step by step as `main` performs it. */
  function Merged(in1: Document, in2: Document): (run: Run)
    ensures run.result.Err? <==> in1.version != in2.version || |in1.modules| == 0 || |in2.modules| == 0
    ensures in1.version != in2.version ==> run.warnings == []
  {
    if in1.version != in2.version then Run([], Err(VersionMismatch))
    else
      var warnings := KeyWarnings(First, in1.keys) + KeyWarnings(Second, in2.keys);
      if |in1.modules| == 0 then Run(warnings, Err(NoModules(First)))
      else if |in2.modules| == 0 then Run(warnings, Err(NoModules(Second)))
      else
        Run(warnings, Ok(Concatenated(in1, Prepared(in1, in2))))
  }

  /** `main` from the loaded documents to the document it writes. */
  method MergePatches(in1: Document, in2: Document) returns (warnings: seq<Warning>, result: Result<Document, MergeError>)
    ensures Run(warnings, result) == Merged(in1, in2)
  {
    if in1.version != in2.version {
      return [], Err(VersionMismatch);
    }
    warnings := KeyWarnings(First, in1.keys) + KeyWarnings(Second, in2.keys);
    if |in1.modules| == 0 {
      return warnings, Err(NoModules(First));
    }
    var mm1 := ComputeBox(in1.modules);
    if |in2.modules| == 0 {
      return warnings, Err(NoModules(Second));
    }
    var doc2 := Relocate(in1, in2, mm1);
    result := Ok(Concatenated(in1, doc2));
  }

  /** The body of `main` between the bounding boxes and the output: the
      second document is moved below the first and its colliding ids are
      renumbered. The document is updated in place, as in the source;
      `minmax` of the second document matters only for its failure on an
      empty module list. */
  method Relocate(in1: Document, in2: Document, mm1: Box) returns (doc2: Document)
    requires |in1.modules| > 0
    requires mm1 == BoundingBox(in1.modules)
    ensures doc2 == Prepared(in1, in2)
  {
    doc2 := in2;
    var moved := ShiftRows(doc2.modules, mm1.maxRow + 1);
    doc2 := doc2.(modules := moved);
    assert moved == Shifted(in2.modules, BoundingBox(in1.modules).maxRow + 1);

    var ids1 := CollectIds(in1);
    var ids2 := CollectIds(doc2);
    ShiftKeepsIds(in2.modules, mm1.maxRow + 1);
    assert ids2 == IdSpace(in2);
    assert in1.modules[0] in in1.modules;
    assert in1.modules[0].id in IdSpace(in1);
    var inter := SortedElements(ids1 * ids2);
    var maxid := SetMax(ids1 + ids2);
    var replace := BuildReplace(inter, maxid);
    var r := Renaming(inter, replace);
    assert r == Renamer(in1, in2);

    var mods := RemapModules(r, doc2.modules);
    var cabs := RemapCables(r, doc2.cables);
    doc2 := doc2.(modules := mods, cables := cabs);
    assert mods == RemappedModules(Renamer(in1, in2), moved);
    assert cabs == RemappedCables(Renamer(in1, in2), in2.cables);
  }
}
