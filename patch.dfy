/**
 * The parsed form of a VCV Rack patch document: a version tag, a list of
 * modules and a list of cables. Only the fields that vcvcat reads or writes
 * are modelled; every other field of a module or a cable is carried along
 * unchanged in `rest`.
 */
module Patch {
  /** An optional identifier field of a JSON record: absent, or present
      with its value. */
  datatype Ref = Absent | Present(value: int)

  /** A rack module: its identifier, its grid position `pos = [col, row]`,
      and the optional identifiers of its left and right neighbours. */
  datatype Module = Module(
    id: int,
    col: int,
    row: int,
    leftModuleId: Ref,
    rightModuleId: Ref,
    rest: string)

  /** A cable: its identifier and the optional identifiers of the modules
      at its two ends. */
  datatype Cable = Cable(
    id: int,
    inputModuleId: Ref,
    outputModuleId: Ref,
    rest: string)

  /** A patch document. `keys` lists its top-level keys in document order;
      `version`, `modules` and `cables` are the values under the three keys
      vcvcat understands. */
  datatype Document = Document(
    keys: seq<string>,
    version: string,
    modules: seq<Module>,
    cables: seq<Cable>)

  /** The top-level keys vcvcat knows how to merge. */
  const KnownKeys: seq<string> := ["version", "modules", "cables"]

  /** Which of the two input documents something refers to. */
  datatype Which = First | Second

  function ModuleIds(mods: seq<Module>): set<int>
  {
    set m | m in mods :: m.id
  }

  function CableIds(cabs: seq<Cable>): set<int>
  {
    set c | c in cabs :: c.id
  }

  /** The identifier space of a document: module ids and cable ids in one
      flat namespace. */
  function IdSpace(d: Document): set<int>
  {
    ModuleIds(d.modules) + CableIds(d.cables)
  }

  /** No two entries of the document, modules and cables alike, share an id. */
  predicate UniqueIds(d: Document)
  {
    && (forall i, j :: 0 <= i < j < |d.modules| ==> d.modules[i].id != d.modules[j].id)
    && (forall i, j :: 0 <= i < j < |d.cables| ==> d.cables[i].id != d.cables[j].id)
    && (forall i, j :: 0 <= i < |d.modules| && 0 <= j < |d.cables| ==> d.modules[i].id != d.cables[j].id)
  }

  predicate RefersInto(ref: Ref, ids: set<int>)
  {
    ref.Present? ==> ref.value in ids
  }

  /** Every neighbour reference and every cable end names a module of the
      same document. */
  predicate RefsResolve(d: Document)
  {
    RefsWithin(d.modules, d.cables, ModuleIds(d.modules))
  }

  /** Every neighbour reference of `mods` and every cable end of `cabs`
      names an id of `ids`. */
  predicate RefsWithin(mods: seq<Module>, cabs: seq<Cable>, ids: set<int>)
  {
    && (forall m :: m in mods ==> RefersInto(m.leftModuleId, ids) && RefersInto(m.rightModuleId, ids))
    && (forall c :: c in cabs ==> RefersInto(c.inputModuleId, ids) && RefersInto(c.outputModuleId, ids))
  }

  lemma ModuleIdsAppend(a: seq<Module>, b: seq<Module>)
    ensures ModuleIds(a + b) == ModuleIds(a) + ModuleIds(b)
  {
    assert forall m :: m in a + b <==> m in a || m in b;
  }

  lemma CableIdsAppend(a: seq<Cable>, b: seq<Cable>)
    ensures CableIds(a + b) == CableIds(a) + CableIds(b)
  {
    assert forall c :: c in a + b <==> c in a || c in b;
  }
}
