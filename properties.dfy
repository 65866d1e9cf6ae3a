/** What the merge guarantees about its output. */
module MergeProperties {
  import opened Wrappers
  import opened Patch
  import opened Schema
  import opened Bounds
  import opened Offset
  import opened Collisions
  import opened Merge

  // ---------------------------------------------------------------------------
  // Guards and warnings

  /** Version guard: the merge stops with `VersionMismatch` exactly when the
      versions differ, and then nothing has been reported or produced. */
  lemma VersionGuard(in1: Document, in2: Document)
    ensures Merged(in1, in2).result == Err(VersionMismatch) <==> in1.version != in2.version
    ensures in1.version != in2.version ==> Merged(in1, in2).warnings == []
  {
  }

  /** The merge fails exactly on differing versions or an input without
      modules, the first document being checked first; otherwise it yields
      a document. */
  lemma MergeFails(in1: Document, in2: Document)
    ensures Merged(in1, in2).result.Err? <==>
      in1.version != in2.version || |in1.modules| == 0 || |in2.modules| == 0
    ensures Merged(in1, in2).result == Err(NoModules(First)) <==>
      in1.version == in2.version && |in1.modules| == 0
  {
  }

  /** `warn_keys` lists a warning for an entry exactly when it is an unknown
      key of that document. */
  lemma {:induction false} KeyWarningsExact(doc: Which, keys: seq<string>)
    ensures forall w :: w in KeyWarnings(doc, keys) <==> w.doc == doc && w.key in keys && w.key !in KnownKeys
  {
    var ws := KeyWarnings(doc, keys);
    var u := UnknownKeys(keys);
    forall w: Warning | w.doc == doc && w.key in keys && w.key !in KnownKeys ensures w in ws {
      var i :| 0 <= i < |u| && u[i] == w.key;
      assert ws[i] == w;
    }
  }

  /** Once the versions agree, a warning is reported for each unknown
      top-level key of each document, and for nothing else. */
  lemma WarningsReported(in1: Document, in2: Document)
    requires in1.version == in2.version
    ensures forall w :: w in Merged(in1, in2).warnings <==>
      || (w.doc == First && w.key in in1.keys && w.key !in KnownKeys)
      || (w.doc == Second && w.key in in2.keys && w.key !in KnownKeys)
  {
    KeyWarningsExact(First, in1.keys);
    KeyWarningsExact(Second, in2.keys);
    assert Merged(in1, in2).warnings == KeyWarnings(First, in1.keys) + KeyWarnings(Second, in2.keys);
  }

  /** Preparing reads only the module and cable lists of the two
      documents, never their top-level keys. */
  lemma PreparedReadsLists(in1: Document, in2: Document, a: Document, b: Document)
    requires |in1.modules| > 0
    requires a.modules == in1.modules && a.cables == in1.cables
    requires b.modules == in2.modules && b.cables == in2.cables
    ensures Prepared(a, b).modules == Prepared(in1, in2).modules
    ensures Prepared(a, b).cables == Prepared(in1, in2).cables
  {
    assert a.modules[0] in a.modules;
    assert IdSpace(a) == IdSpace(in1) && IdSpace(b) == IdSpace(in2);
    PreparedSteps(a, b);
    PreparedSteps(in1, in2);
  }

  /** The key check only warns: the merge result is the same whatever
      unknown top-level keys the documents carry. */
  lemma WarningsHarmless(in1: Document, in2: Document, k1: seq<string>, k2: seq<string>)
    ensures Merged(in1.(keys := k1), in2.(keys := k2)).result == Merged(in1, in2).result
  {
    if in1.version == in2.version && |in1.modules| > 0 && |in2.modules| > 0 {
      PreparedReadsLists(in1, in2, in1.(keys := k1), in2.(keys := k2));
    }
  }

  // ---------------------------------------------------------------------------
  // The second document as `main` leaves it

  /** Each module of the second document is moved down by `maxRow + 1` of
      the first document and has its ids passed through the remap table;
      each cable has its ids passed through the table; nothing else changes
      and the order is kept. */
  lemma PreparedShape(in1: Document, in2: Document)
    requires |in1.modules| > 0
    ensures var p := Prepared(in1, in2);
      var r := Renamer(in1, in2);
      && |p.modules| == |in2.modules|
      && |p.cables| == |in2.cables|
      && (forall j :: 0 <= j < |in2.modules| ==>
            && p.modules[j].row == in2.modules[j].row + BoundingBox(in1.modules).maxRow + 1
            && p.modules[j].col == in2.modules[j].col
            && p.modules[j].rest == in2.modules[j].rest
            && p.modules[j].id == r.Apply(in2.modules[j].id)
            && p.modules[j].leftModuleId == r.ApplyRef(in2.modules[j].leftModuleId)
            && p.modules[j].rightModuleId == r.ApplyRef(in2.modules[j].rightModuleId))
      && (forall j :: 0 <= j < |in2.cables| ==>
            && p.cables[j].rest == in2.cables[j].rest
            && p.cables[j].id == r.Apply(in2.cables[j].id)
            && p.cables[j].inputModuleId == r.ApplyRef(in2.cables[j].inputModuleId)
            && p.cables[j].outputModuleId == r.ApplyRef(in2.cables[j].outputModuleId))
  {
  }

  /** The ids of the prepared document are the rewritten ids of the second
      document: none of them is an id of the first document, and there are
      as many as before. */
  lemma PreparedIds(in1: Document, in2: Document)
    requires |in1.modules| > 0
    ensures var p := Prepared(in1, in2);
      && ModuleIds(p.modules) == Renamer(in1, in2).Image(ModuleIds(in2.modules))
      && IdSpace(p) == Renamer(in1, in2).Image(IdSpace(in2))
      && (forall x :: x in IdSpace(p) ==> x !in IdSpace(in1))
      && |IdSpace(p)| == |IdSpace(in2)|
  {
    var p := Prepared(in1, in2);
    var r := Renamer(in1, in2);
    var ids1, ids2 := IdSpace(in1), IdSpace(in2);
    var moved := Shifted(in2.modules, BoundingBox(in1.modules).maxRow + 1);
    assert in1.modules[0] in in1.modules;
    assert in1.modules[0].id in ids1;
    assert p.modules == RemappedModules(r, moved);
    assert p.cables == RemappedCables(r, in2.cables);
    ShiftKeepsIds(in2.modules, BoundingBox(in1.modules).maxRow + 1);
    RemappedIds(r, moved, in2.cables);
    assert ModuleIds(p.modules) == r.Image(ModuleIds(in2.modules));
    assert CableIds(p.cables) == r.Image(CableIds(in2.cables));
    ImageUnion(r, ModuleIds(in2.modules), CableIds(in2.cables));
    assert IdSpace(p) == r.Image(ids2);
    ResolveFresh(ids1, ids2);
    InjectiveImage(r, ids2);
    forall x | x in IdSpace(p) ensures x !in ids1 {
      assert x in r.Image(ids2);
      var y :| y in ids2 && r.Apply(y) == x;
    }
  }

  // ---------------------------------------------------------------------------
  // The output document

  /** A successful merge: the first document's version, only the three
      known keys, and each list of the first document followed by that of
      the prepared second one. */
  lemma MergedOutput(in1: Document, in2: Document)
    requires in1.version == in2.version && |in1.modules| > 0 && |in2.modules| > 0
    ensures Merged(in1, in2).result.Ok?
    ensures Merged(in1, in2).result.value == Concatenated(in1, Prepared(in1, in2))
  {
  }

  /** Counts and order: the output drops every unknown key, keeps the first
      document's modules and cables in front, unchanged, and holds as many
      of each as the inputs together. */
  lemma MergedShape(in1: Document, in2: Document)
    requires in1.version == in2.version && |in1.modules| > 0 && |in2.modules| > 0
    ensures var out := Merged(in1, in2).result.value;
      && out.version == in1.version
      && UnknownKeys(out.keys) == []
      && |out.modules| == |in1.modules| + |in2.modules|
      && |out.cables| == |in1.cables| + |in2.cables|
      && out.modules[..|in1.modules|] == in1.modules
      && out.cables[..|in1.cables|] == in1.cables
  {
    MergedOutput(in1, in2);
    PreparedShape(in1, in2);
    assert UnknownKeys(KnownKeys) == [];
  }

  /** Each module of the second document lands `maxRow + 1` of the first
      document further down, in its own column, in its original order. */
  lemma MergedOffset(in1: Document, in2: Document)
    requires in1.version == in2.version && |in1.modules| > 0 && |in2.modules| > 0
    ensures var out := Merged(in1, in2).result.value;
      var n := |in1.modules|;
      forall j :: 0 <= j < |in2.modules| ==>
        && out.modules[n + j].row == in2.modules[j].row + BoundingBox(in1.modules).maxRow + 1
        && out.modules[n + j].col == in2.modules[j].col
  {
    MergedOutput(in1, in2);
    PreparedShape(in1, in2);
  }

  /** Renumbering does not move modules between rows. */
  lemma RemappedBelow(r: Renaming, above: seq<Module>, mods: seq<Module>)
    requires r.Covers()
    requires forall m1, m2 :: m1 in above && m2 in mods ==> m1.row < m2.row
    ensures forall m1, m2 :: m1 in above && m2 in RemappedModules(r, mods) ==> m1.row < m2.row
  {
    var mods' := RemappedModules(r, mods);
    forall m1, m2 | m1 in above && m2 in mods' ensures m1.row < m2.row {
      var k :| 0 <= k < |mods'| && mods'[k] == m2;
      assert mods[k] in mods;
    }
  }

  /** The prepared modules lie below the first document when the second had
      no negative row: remapping ids does not move anything. */
  lemma PreparedBelow(in1: Document, in2: Document)
    requires |in1.modules| > 0
    requires forall m :: m in in2.modules ==> m.row >= 0
    ensures forall m1, m2 :: m1 in in1.modules && m2 in Prepared(in1, in2).modules ==> m1.row < m2.row
  {
    ShiftedBelow(in1.modules, in2.modules);
    RemappedBelow(Renamer(in1, in2), in1.modules, Shifted(in2.modules, BoundingBox(in1.modules).maxRow + 1));
    PreparedSteps(in1, in2);
  }

  /** Placing a document whose modules all lie below those of another
      after it keeps every earlier module above every later one. */
  lemma ConcatenatedBelow(d1: Document, d2: Document)
    requires forall m1, m2 :: m1 in d1.modules && m2 in d2.modules ==> m1.row < m2.row
    ensures var out := Concatenated(d1, d2);
      forall i, j :: 0 <= i < |d1.modules| <= j < |out.modules| ==> out.modules[i].row < out.modules[j].row
  {
    var out := Concatenated(d1, d2);
    var n := |d1.modules|;
    forall i, j | 0 <= i < n <= j < |out.modules| ensures out.modules[i].row < out.modules[j].row {
      assert out.modules[i] in d1.modules by {
        assert out.modules[i] == d1.modules[i];
      }
      assert out.modules[j] in d2.modules by {
        assert out.modules[j] == d2.modules[j - n];
      }
    }
  }

  /** Non-overlap: when the second document has no module on a negative row,
      every module it contributes lies strictly below every module of the
      first. */
  lemma MergedNonOverlap(in1: Document, in2: Document)
    requires in1.version == in2.version && |in1.modules| > 0 && |in2.modules| > 0
    requires forall m :: m in in2.modules ==> m.row >= 0
    ensures var out := Merged(in1, in2).result.value;
      forall i, j :: 0 <= i < |in1.modules| <= j < |out.modules| ==> out.modules[i].row < out.modules[j].row
  {
    MergedOutput(in1, in2);
    PreparedBelow(in1, in2);
    ConcatenatedBelow(in1, Prepared(in1, in2));
  }

  // ---------------------------------------------------------------------------
  // Identifiers of the output

  /** Concatenating two documents whose ids are unique and whose id spaces
      are disjoint gives a document with unique ids. */
  lemma ConcatenatedUnique(d1: Document, d2: Document)
    requires UniqueIds(d1) && UniqueIds(d2)
    requires forall x :: x in IdSpace(d2) ==> x !in IdSpace(d1)
    ensures UniqueIds(Concatenated(d1, d2))
  {
    var out := Concatenated(d1, d2);
    var n, c := |d1.modules|, |d1.cables|;
    forall j | n <= j < |out.modules| ensures out.modules[j].id !in IdSpace(d1) {
      assert out.modules[j] == d2.modules[j - n] && d2.modules[j - n] in d2.modules;
    }
    forall j | c <= j < |out.cables| ensures out.cables[j].id !in IdSpace(d1) {
      assert out.cables[j] == d2.cables[j - c] && d2.cables[j - c] in d2.cables;
    }
    forall i | 0 <= i < n ensures out.modules[i].id in IdSpace(d1) {
      assert out.modules[i] == d1.modules[i] && d1.modules[i] in d1.modules;
    }
    forall i | 0 <= i < c ensures out.cables[i].id in IdSpace(d1) {
      assert out.cables[i] == d1.cables[i] && d1.cables[i] in d1.cables;
    }
    forall i, j | 0 <= i < j < |out.modules| ensures out.modules[i].id != out.modules[j].id {
      if j < n {
        assert out.modules[i] == d1.modules[i] && out.modules[j] == d1.modules[j];
      } else if n <= i {
        assert out.modules[i] == d2.modules[i - n] && out.modules[j] == d2.modules[j - n];
      }
    }
    forall i, j | 0 <= i < j < |out.cables| ensures out.cables[i].id != out.cables[j].id {
      if j < c {
        assert out.cables[i] == d1.cables[i] && out.cables[j] == d1.cables[j];
      } else if c <= i {
        assert out.cables[i] == d2.cables[i - c] && out.cables[j] == d2.cables[j - c];
      }
    }
    forall i, j | 0 <= i < |out.modules| && 0 <= j < |out.cables|
      ensures out.modules[i].id != out.cables[j].id
    {
      if i < n && j < c {
        assert out.modules[i] == d1.modules[i] && out.cables[j] == d1.cables[j];
      } else if n <= i && c <= j {
        assert out.modules[i] == d2.modules[i - n] && out.cables[j] == d2.cables[j - c];
      }
    }
  }

  /** Rewriting through an injective table keeps the second document's ids
      unique. */
  lemma PreparedUnique(in1: Document, in2: Document)
    requires |in1.modules| > 0
    requires UniqueIds(in2)
    ensures UniqueIds(Prepared(in1, in2))
  {
    var p := Prepared(in1, in2);
    var r := Renamer(in1, in2);
    var ids2 := IdSpace(in2);
    assert in1.modules[0] in in1.modules;
    assert in1.modules[0].id in IdSpace(in1);
    PreparedShape(in1, in2);
    ResolveFresh(IdSpace(in1), ids2);
    forall i | 0 <= i < |in2.modules| ensures in2.modules[i].id in ids2 {
      assert in2.modules[i] in in2.modules;
    }
    forall j | 0 <= j < |in2.cables| ensures in2.cables[j].id in ids2 {
      assert in2.cables[j] in in2.cables;
    }
  }

  /** Identifier space of the output: the first document's ids and the
      rewritten ids of the second, which are disjoint from them, so the
      output has exactly as many ids as the two inputs together. */
  lemma MergedIds(in1: Document, in2: Document)
    requires in1.version == in2.version && |in1.modules| > 0 && |in2.modules| > 0
    ensures var out := Merged(in1, in2).result.value;
      && IdSpace(out) == IdSpace(in1) + Renamer(in1, in2).Image(IdSpace(in2))
      && (forall x :: x in IdSpace(in1) ==> x !in Renamer(in1, in2).Image(IdSpace(in2)))
      && |IdSpace(out)| == |IdSpace(in1)| + |IdSpace(in2)|
  {
    var out := Merged(in1, in2).result.value;
    var p := Prepared(in1, in2);
    MergedOutput(in1, in2);
    PreparedIds(in1, in2);
    ModuleIdsAppend(in1.modules, p.modules);
    CableIdsAppend(in1.cables, p.cables);
    assert IdSpace(out) == IdSpace(in1) + IdSpace(p);
    DisjointUnionSize(IdSpace(in1), IdSpace(p));
  }

  /** Identifier uniqueness: if each input has unique ids, so has the
      output. */
  lemma MergedUnique(in1: Document, in2: Document)
    requires in1.version == in2.version && |in1.modules| > 0 && |in2.modules| > 0
    requires UniqueIds(in1) && UniqueIds(in2)
    ensures UniqueIds(Merged(in1, in2).result.value)
  {
    MergedOutput(in1, in2);
    PreparedIds(in1, in2);
    PreparedUnique(in1, in2);
    ConcatenatedUnique(in1, Prepared(in1, in2));
  }

  // ---------------------------------------------------------------------------
  // References of the output

  /** Concatenation keeps references that resolve within each part. */
  lemma ConcatenatedRefs(d1: Document, d2: Document)
    requires RefsResolve(d1) && RefsResolve(d2)
    ensures RefsResolve(Concatenated(d1, d2))
  {
    ModuleIdsAppend(d1.modules, d2.modules);
  }

  /** The two steps that prepare the second document. */
  lemma PreparedSteps(in1: Document, in2: Document)
    requires |in1.modules| > 0
    ensures Prepared(in1, in2).modules ==
      RemappedModules(Renamer(in1, in2), Shifted(in2.modules, BoundingBox(in1.modules).maxRow + 1))
    ensures Prepared(in1, in2).cables == RemappedCables(Renamer(in1, in2), in2.cables)
  {
  }

  /** Rewriting ids and references through one renaming carries every
      reference into the image of the ids it named. */
  lemma RemappedRefs(r: Renaming, mods: seq<Module>, cabs: seq<Cable>, ids: set<int>)
    requires r.Covers()
    requires RefsWithin(mods, cabs, ids)
    ensures RefsWithin(RemappedModules(r, mods), RemappedCables(r, cabs), r.Image(ids))
  {
    var mods', cabs' := RemappedModules(r, mods), RemappedCables(r, cabs);
    forall ref | RefersInto(ref, ids) ensures RefersInto(r.ApplyRef(ref), r.Image(ids)) {
    }
    forall m | m in mods'
      ensures RefersInto(m.leftModuleId, r.Image(ids)) && RefersInto(m.rightModuleId, r.Image(ids))
    {
      var k :| 0 <= k < |mods'| && mods'[k] == m;
      assert mods[k] in mods;
    }
    forall c | c in cabs'
      ensures RefersInto(c.inputModuleId, r.Image(ids)) && RefersInto(c.outputModuleId, r.Image(ids))
    {
      var k :| 0 <= k < |cabs'| && cabs'[k] == c;
      assert cabs[k] in cabs;
    }
  }

  /** Moving modules to other rows leaves their references alone. */
  lemma ShiftedRefs(mods: seq<Module>, delta: int, cabs: seq<Cable>, ids: set<int>)
    requires RefsWithin(mods, cabs, ids)
    ensures RefsWithin(Shifted(mods, delta), cabs, ids)
  {
    var moved := Shifted(mods, delta);
    forall m | m in moved
      ensures RefersInto(m.leftModuleId, ids) && RefersInto(m.rightModuleId, ids)
    {
      var k :| 0 <= k < |moved| && moved[k] == m;
      assert mods[k] in mods;
    }
  }

  /** Every reference of the second document that named one of its modules
      still does after the rewrite, since ids and references are rewritten
      through the same table. */
  lemma PreparedRefs(in1: Document, in2: Document)
    requires |in1.modules| > 0
    requires RefsResolve(in2)
    ensures RefsResolve(Prepared(in1, in2))
  {
    var p := Prepared(in1, in2);
    var r := Renamer(in1, in2);
    var mids := ModuleIds(in2.modules);
    var moved := Shifted(in2.modules, BoundingBox(in1.modules).maxRow + 1);
    ShiftedRefs(in2.modules, BoundingBox(in1.modules).maxRow + 1, in2.cables, mids);
    RemappedRefs(r, moved, in2.cables, mids);
    PreparedIds(in1, in2);
    PreparedSteps(in1, in2);
  }

  /** Reference integrity: if every neighbour and cable-end reference of each
      input names a module of that input, every reference of the output names
      a module of the output. */
  lemma MergedRefs(in1: Document, in2: Document)
    requires in1.version == in2.version && |in1.modules| > 0 && |in2.modules| > 0
    requires RefsResolve(in1) && RefsResolve(in2)
    ensures RefsResolve(Merged(in1, in2).result.value)
  {
    MergedOutput(in1, in2);
    PreparedRefs(in1, in2);
    ConcatenatedRefs(in1, Prepared(in1, in2));
  }

  /** A renaming with no colliding ids changes nothing. */
  lemma IdleRenaming(r: Renaming, mods: seq<Module>, cabs: seq<Cable>)
    requires r.inter == []
    ensures RemappedModules(r, mods) == mods
    ensures RemappedCables(r, cabs) == cabs
  {
    forall i | 0 <= i < |mods| ensures RemapModule(r, mods[i]) == mods[i] {
      var m := mods[i];
      assert r.ApplyRef(m.leftModuleId) == m.leftModuleId;
      assert r.ApplyRef(m.rightModuleId) == m.rightModuleId;
    }
    forall j | 0 <= j < |cabs| ensures RemapCable(r, cabs[j]) == cabs[j] {
      var c := cabs[j];
      assert r.ApplyRef(c.inputModuleId) == c.inputModuleId;
      assert r.ApplyRef(c.outputModuleId) == c.outputModuleId;
    }
  }

  /** Without shared ids the renaming has nothing to rename. */
  lemma RenamerIdle(in1: Document, in2: Document)
    requires |in1.modules| > 0
    requires IdSpace(in1) !! IdSpace(in2)
    ensures Renamer(in1, in2).inter == []
    ensures Renamer(in1, in2).table == map[]
  {
    var r := Renamer(in1, in2);
    assert in1.modules[0] in in1.modules;
    assert in1.modules[0].id in IdSpace(in1);
    assert forall x :: x !in IdSpace(in1) * IdSpace(in2);
    assert forall x :: x !in r.table.Keys;
  }

  /** Without shared ids, preparing the second document only moves its
      modules. */
  lemma PreparedNoRemap(in1: Document, in2: Document)
    requires |in1.modules| > 0
    requires Renamer(in1, in2).inter == []
    ensures Prepared(in1, in2).modules == Shifted(in2.modules, BoundingBox(in1.modules).maxRow + 1)
    ensures Prepared(in1, in2).cables == in2.cables
  {
    var r := Renamer(in1, in2);
    var moved := Shifted(in2.modules, BoundingBox(in1.modules).maxRow + 1);
    IdleRenaming(r, moved, in2.cables);
  }

  /** With no id shared between the documents, the remap table is empty and
      the second document's modules are only moved, its cables untouched. */
  lemma NoCollisionNoRemap(in1: Document, in2: Document)
    requires in1.version == in2.version && |in1.modules| > 0 && |in2.modules| > 0
    requires IdSpace(in1) !! IdSpace(in2)
    ensures Renamer(in1, in2).table == map[]
    ensures var out := Merged(in1, in2).result.value;
      && out.modules == in1.modules + Shifted(in2.modules, BoundingBox(in1.modules).maxRow + 1)
      && out.cables == in1.cables + in2.cables
  {
    MergedOutput(in1, in2);
    RenamerIdle(in1, in2);
    PreparedNoRemap(in1, in2);
  }
}
