/**
 * Identifier collision resolution: the ids shared by the two documents, the
 * remap table that sends each of them to a fresh id above every existing one,
 * and the rewriting of the second document's ids and references through it.
 */
module Collisions {
  import opened Patch

  // ---------------------------------------------------------------------------
  // Collecting the identifier space (the `ids` class)

  /** `ids.__init__`: adds every module id, then every cable id, to one set. */
  method CollectIds(d: Document) returns (values: set<int>)
    ensures values == IdSpace(d)
  {
    values := {};
    for i := 0 to |d.modules|
      invariant values == ModuleIds(d.modules[..i])
    {
      ModuleIdsAppend(d.modules[..i], [d.modules[i]]);
      assert d.modules[..i + 1] == d.modules[..i] + [d.modules[i]];
      values := values + {d.modules[i].id};
    }
    assert d.modules[..|d.modules|] == d.modules;
    ghost var mids := values;
    for j := 0 to |d.cables|
      invariant values == mids + CableIds(d.cables[..j])
    {
      CableIdsAppend(d.cables[..j], [d.cables[j]]);
      assert d.cables[..j + 1] == d.cables[..j] + [d.cables[j]];
      values := values + {d.cables[j].id};
    }
    assert d.cables[..|d.cables|] == d.cables;
  }

  // ---------------------------------------------------------------------------
  // The least and greatest element of a set, and a set in ascending order

  predicate StrictlyIncreasing(s: seq<int>)
  {
    forall i, j :: 0 <= i < j < |s| ==> s[i] < s[j]
  }

  predicate IsLeast(m: int, s: set<int>)
  {
    m in s && forall y :: y in s ==> m <= y
  }

  predicate IsGreatest(m: int, s: set<int>)
  {
    m in s && forall y :: y in s ==> y <= m
  }

  lemma HasElement(s: set<int>)
    requires s != {}
    ensures exists x :: x in s
  {
    if forall x :: x !in s {
      assert false;
    }
  }

  lemma {:induction false} HasLeast(s: set<int>)
    requires s != {}
    ensures exists m :: IsLeast(m, s)
    decreases |s|
  {
    HasElement(s);
    var x :| x in s;
    var rest := s - {x};
    var least := x;
    if rest != {} {
      HasLeast(rest);
      var m :| IsLeast(m, rest);
      least := if x < m then x else m;
    }
    assert IsLeast(least, s) by {
      forall y | y in s ensures least <= y {
        if y != x { assert y in rest; }
      }
    }
  }

  lemma {:induction false} HasGreatest(s: set<int>)
    requires s != {}
    ensures exists m :: IsGreatest(m, s)
    decreases |s|
  {
    HasElement(s);
    var x :| x in s;
    var rest := s - {x};
    var greatest := x;
    if rest != {} {
      HasGreatest(rest);
      var m :| IsGreatest(m, rest);
      greatest := if m < x then x else m;
    }
    assert IsGreatest(greatest, s) by {
      forall y | y in s ensures y <= greatest {
        if y != x { assert y in rest; }
      }
    }
  }

  function SetMin(s: set<int>): (m: int)
    requires s != {}
    ensures IsLeast(m, s)
  {
    HasLeast(s);
    var m :| IsLeast(m, s);
    m
  }

  /** Python's `max` of a non-empty set. */
  function SetMax(s: set<int>): (m: int)
    requires s != {}
    ensures IsGreatest(m, s)
  {
    HasGreatest(s);
    var m :| IsGreatest(m, s);
    m
  }

  /** Python's `sorted` of a set: its elements, each once, in ascending order. */
  function SortedElements(s: set<int>): (r: seq<int>)
    ensures StrictlyIncreasing(r)
    ensures forall x :: x in r <==> x in s
    ensures |r| == |s|
    decreases |s|
  {
    if s == {} then []
    else
      var m := SetMin(s);
      var rest := SortedElements(s - {m});
      assert forall k :: 0 <= k < |rest| ==> m < rest[k] by {
        forall k | 0 <= k < |rest| ensures m < rest[k] {
          assert rest[k] in rest;
        }
      }
      [m] + rest
  }

  // ---------------------------------------------------------------------------
  // The remap table

  /** The table of the source's loop after it has visited all of `inter`:
      the k-th visited id (counting from 1) is sent to `start + k`, a later
      visit of the same id overriding an earlier one. */
  function ReplaceTable(inter: seq<int>, start: int): (t: map<int, int>)
    ensures t.Keys == set x | x in inter
    ensures forall x :: x in t ==> start < t[x] <= start + |inter|
  {
    if inter == [] then map[]
    else
      var n := |inter|;
      assert inter == inter[..n - 1] + [inter[n - 1]];
      ReplaceTable(inter[..n - 1], start)[inter[n - 1] := start + n]
  }

  /** The table-building loop: the counter starts at `start` and is bumped
      before each id is entered. */
  method BuildReplace(inter: seq<int>, start: int) returns (replace: map<int, int>)
    ensures replace == ReplaceTable(inter, start)
  {
    var maxid := start;
    replace := map[];
    for i := 0 to |inter|
      invariant maxid == start + i
      invariant replace == ReplaceTable(inter[..i], start)
    {
      maxid := maxid + 1;
      assert inter[..i + 1][..i] == inter[..i];
      replace := replace[inter[i] := maxid];
    }
    assert inter[..|inter|] == inter;
  }

  /** On ids visited in strictly increasing order, the i-th one is sent to
      `start + i + 1`. */
  lemma {:induction false} ReplaceTableAt(inter: seq<int>, start: int, i: nat)
    requires StrictlyIncreasing(inter)
    requires i < |inter|
    ensures inter[i] in ReplaceTable(inter, start)
    ensures ReplaceTable(inter, start)[inter[i]] == start + i + 1
  {
    var n := |inter|;
    if i < n - 1 {
      var init := inter[..n - 1];
      assert StrictlyIncreasing(init);
      assert init[i] == inter[i];
      ReplaceTableAt(init, start, i);
      assert inter[i] < inter[n - 1];
    }
  }

  /** A table whose values increase with its keys, and so is injective. */
  predicate Monotone(t: map<int, int>)
  {
    forall x, y :: x in t && y in t && x < y ==> t[x] < t[y]
  }

  /** Visited in strictly increasing order, the table is monotone. */
  lemma ReplaceTableOrdered(inter: seq<int>, start: int)
    requires StrictlyIncreasing(inter)
    ensures Monotone(ReplaceTable(inter, start))
  {
    var t := ReplaceTable(inter, start);
    forall x, y | x in t && y in t && x < y ensures t[x] < t[y] {
      var i :| 0 <= i < |inter| && inter[i] == x;
      var j :| 0 <= j < |inter| && inter[j] == y;
      ReplaceTableAt(inter, start, i);
      ReplaceTableAt(inter, start, j);
    }
  }

  /** The collisions in visiting order, together with their remap table. */
  datatype Renaming = Renaming(inter: seq<int>, table: map<int, int>) {

    /** Every collision has a table entry, so the lookups cannot fail. */
    predicate Covers()
    {
      forall x :: x in inter ==> x in table
    }

    /** An id as the rewriting loops leave it. */
    function Apply(x: int): int
      requires Covers()
    {
      if x in inter then table[x] else x
    }

    /** A reference field as the rewriting loops leave it: an absent one
        stays absent. */
    function ApplyRef(ref: Ref): Ref
      requires Covers()
    {
      match ref
      case Absent => Absent
      case Present(x) => Present(Apply(x))
    }

    function Image(s: set<int>): set<int>
      requires Covers()
    {
      set x | x in s :: Apply(x)
    }
  }

  /** The resolution of `main`: the sorted intersection of the two id spaces,
      with a table numbering them upward from the maximum of their union.
      Its keys are exactly the shared ids, and all its values exceed every id
      of either document. */
  function Resolve(ids1: set<int>, ids2: set<int>): (r: Renaming)
    requires ids1 + ids2 != {}
    ensures r.Covers()
    ensures forall x :: x in r.inter <==> x in ids1 * ids2
    ensures StrictlyIncreasing(r.inter)
    ensures r.table.Keys == ids1 * ids2
    ensures forall x, y :: x in r.table && y in ids1 + ids2 ==> y < r.table[x]
  {
    var inter := SortedElements(ids1 * ids2);
    Renaming(inter, ReplaceTable(inter, SetMax(ids1 + ids2)))
  }

  /** The values of the table increase in key order, so no two shared ids
      receive the same new id. */
  lemma ResolveOrdered(ids1: set<int>, ids2: set<int>)
    requires ids1 + ids2 != {}
    ensures Monotone(Resolve(ids1, ids2).table)
  {
    var inter := SortedElements(ids1 * ids2);
    ReplaceTableOrdered(inter, SetMax(ids1 + ids2));
  }

  /** Freshness: after rewriting, no id of the second document is an id of the
      first; shared ids move above everything, the others stay put; and the
      rewriting is injective on the second document's ids. */
  lemma ResolveFresh(ids1: set<int>, ids2: set<int>)
    requires ids1 + ids2 != {}
    ensures var r := Resolve(ids1, ids2);
      && (forall x :: x in ids2 ==> r.Apply(x) !in ids1)
      && (forall x :: x in ids1 * ids2 ==> r.Apply(x) !in ids1 + ids2)
      && (forall x :: x !in ids1 * ids2 ==> r.Apply(x) == x)
      && (forall x, y :: x in ids2 && y in ids2 && r.Apply(x) == r.Apply(y) ==> x == y)
  {
    var r := Resolve(ids1, ids2);
    ResolveOrdered(ids1, ids2);
    forall x | x in ids1 * ids2 ensures r.Apply(x) !in ids1 + ids2 {
      assert forall y :: y in ids1 + ids2 ==> y < r.Apply(x);
    }
    forall x, y | x in ids2 && y in ids2 && x != y ensures r.Apply(x) != r.Apply(y) {
      if x in ids1 * ids2 && y in ids1 * ids2 {
        assert r.table[x] < r.table[y] || r.table[y] < r.table[x];
      } else if x in ids1 * ids2 {
        assert y < r.Apply(x);
      } else if y in ids1 * ids2 {
        assert x < r.Apply(y);
      }
    }
  }

  /** An injective rewriting keeps the size of a set. */
  lemma {:induction false} InjectiveImage(r: Renaming, s: set<int>)
    requires r.Covers()
    requires forall x, y :: x in s && y in s && r.Apply(x) == r.Apply(y) ==> x == y
    ensures |r.Image(s)| == |s|
    decreases |s|
  {
    if s != {} {
      HasElement(s);
      var x :| x in s;
      var rest := s - {x};
      InjectiveImage(r, rest);
      assert r.Image(s) == r.Image(rest) + {r.Apply(x)};
      assert r.Apply(x) !in r.Image(rest);
    }
  }

  lemma ImageUnion(r: Renaming, a: set<int>, b: set<int>)
    requires r.Covers()
    ensures r.Image(a + b) == r.Image(a) + r.Image(b)
  {
    forall y | y in r.Image(a + b) ensures y in r.Image(a) + r.Image(b) {
      var x :| x in a + b && r.Apply(x) == y;
      if x in a { assert y in r.Image(a); } else { assert y in r.Image(b); }
    }
  }

  lemma DisjointUnionSize(a: set<int>, b: set<int>)
    requires forall x :: x in a ==> x !in b
    ensures |a + b| == |a| + |b|
  {
    var none: set<int> := {};
    assert forall x :: x in a * b <==> x in none;
    assert a * b == none;
  }

  // ---------------------------------------------------------------------------
  // Rewriting the second document

  function RemapModule(r: Renaming, m: Module): Module
    requires r.Covers()
  {
    m.(id := r.Apply(m.id),
       leftModuleId := r.ApplyRef(m.leftModuleId),
       rightModuleId := r.ApplyRef(m.rightModuleId))
  }

  function RemapCable(r: Renaming, c: Cable): Cable
    requires r.Covers()
  {
    c.(id := r.Apply(c.id),
       inputModuleId := r.ApplyRef(c.inputModuleId),
       outputModuleId := r.ApplyRef(c.outputModuleId))
  }

  function RemappedModules(r: Renaming, mods: seq<Module>): seq<Module>
    requires r.Covers()
  {
    seq(|mods|, i requires 0 <= i < |mods| => RemapModule(r, mods[i]))
  }

  function RemappedCables(r: Renaming, cabs: seq<Cable>): seq<Cable>
    requires r.Covers()
  {
    seq(|cabs|, i requires 0 <= i < |cabs| => RemapCable(r, cabs[i]))
  }

  /** The module loop: for `id`, `leftModuleId` and `rightModuleId`, a
      present value that is a collision is replaced by its table entry. */
  method RemapModules(r: Renaming, mods: seq<Module>) returns (res: seq<Module>)
    requires r.Covers()
    ensures |res| == |mods|
    ensures forall i :: 0 <= i < |mods| ==>
      && res[i].id == (if mods[i].id in r.inter then r.table[mods[i].id] else mods[i].id)
      && (mods[i].leftModuleId.Absent? ==> res[i].leftModuleId.Absent?)
      && (mods[i].rightModuleId.Absent? ==> res[i].rightModuleId.Absent?)
      && (mods[i].leftModuleId.Present? && mods[i].leftModuleId.value in r.inter ==>
            res[i].leftModuleId == Present(r.table[mods[i].leftModuleId.value]))
      && (mods[i].rightModuleId.Present? && mods[i].rightModuleId.value in r.inter ==>
            res[i].rightModuleId == Present(r.table[mods[i].rightModuleId.value]))
      && (mods[i].leftModuleId.Present? && mods[i].leftModuleId.value !in r.inter ==>
            res[i].leftModuleId == mods[i].leftModuleId)
      && (mods[i].rightModuleId.Present? && mods[i].rightModuleId.value !in r.inter ==>
            res[i].rightModuleId == mods[i].rightModuleId)
      && res[i] == mods[i].(id := res[i].id, leftModuleId := res[i].leftModuleId,
                            rightModuleId := res[i].rightModuleId)
    ensures res == RemappedModules(r, mods)
  {
    res := mods;
    var i := 0;
    while i < |res|
      invariant 0 <= i <= |res| == |mods|
      invariant forall k :: 0 <= k < i ==> res[k] == RemapModule(r, mods[k])
      invariant forall k :: i <= k < |res| ==> res[k] == mods[k]
    {
      var m := res[i];
      if m.id in r.inter {
        m := m.(id := r.table[m.id]);
      }
      if m.leftModuleId.Present? && m.leftModuleId.value in r.inter {
        m := m.(leftModuleId := Present(r.table[m.leftModuleId.value]));
      }
      if m.rightModuleId.Present? && m.rightModuleId.value in r.inter {
        m := m.(rightModuleId := Present(r.table[m.rightModuleId.value]));
      }
      res := res[i := m];
      i := i + 1;
    }
  }

  /** The cable loop: for `id`, `inputModuleId` and `outputModuleId`, a
      present value that is a collision is replaced by its table entry. */
  method RemapCables(r: Renaming, cabs: seq<Cable>) returns (res: seq<Cable>)
    requires r.Covers()
    ensures |res| == |cabs|
    ensures forall i :: 0 <= i < |cabs| ==>
      && res[i].id == (if cabs[i].id in r.inter then r.table[cabs[i].id] else cabs[i].id)
      && (cabs[i].inputModuleId.Absent? ==> res[i].inputModuleId.Absent?)
      && (cabs[i].outputModuleId.Absent? ==> res[i].outputModuleId.Absent?)
      && (cabs[i].inputModuleId.Present? && cabs[i].inputModuleId.value in r.inter ==>
            res[i].inputModuleId == Present(r.table[cabs[i].inputModuleId.value]))
      && (cabs[i].outputModuleId.Present? && cabs[i].outputModuleId.value in r.inter ==>
            res[i].outputModuleId == Present(r.table[cabs[i].outputModuleId.value]))
      && (cabs[i].inputModuleId.Present? && cabs[i].inputModuleId.value !in r.inter ==>
            res[i].inputModuleId == cabs[i].inputModuleId)
      && (cabs[i].outputModuleId.Present? && cabs[i].outputModuleId.value !in r.inter ==>
            res[i].outputModuleId == cabs[i].outputModuleId)
      && res[i] == cabs[i].(id := res[i].id, inputModuleId := res[i].inputModuleId,
                            outputModuleId := res[i].outputModuleId)
    ensures res == RemappedCables(r, cabs)
  {
    res := cabs;
    var i := 0;
    while i < |res|
      invariant 0 <= i <= |res| == |cabs|
      invariant forall k :: 0 <= k < i ==> res[k] == RemapCable(r, cabs[k])
      invariant forall k :: i <= k < |res| ==> res[k] == cabs[k]
    {
      var c := res[i];
      if c.id in r.inter {
        c := c.(id := r.table[c.id]);
      }
      if c.inputModuleId.Present? && c.inputModuleId.value in r.inter {
        c := c.(inputModuleId := Present(r.table[c.inputModuleId.value]));
      }
      if c.outputModuleId.Present? && c.outputModuleId.value in r.inter {
        c := c.(outputModuleId := Present(r.table[c.outputModuleId.value]));
      }
      res := res[i := c];
      i := i + 1;
    }
  }

  /** The ids of the rewritten lists are the rewritten ids. */
  lemma RemappedIds(r: Renaming, mods: seq<Module>, cabs: seq<Cable>)
    requires r.Covers()
    ensures ModuleIds(RemappedModules(r, mods)) == r.Image(ModuleIds(mods))
    ensures CableIds(RemappedCables(r, cabs)) == r.Image(CableIds(cabs))
  {
    var ms := RemappedModules(r, mods);
    forall x | x in r.Image(ModuleIds(mods)) ensures x in ModuleIds(ms) {
      var y :| y in ModuleIds(mods) && r.Apply(y) == x;
      var k :| 0 <= k < |mods| && mods[k].id == y;
      assert ms[k] in ms;
    }
    forall x | x in ModuleIds(ms) ensures x in r.Image(ModuleIds(mods)) {
      var k :| 0 <= k < |ms| && ms[k].id == x;
      assert mods[k] in mods;
    }
    var cs := RemappedCables(r, cabs);
    forall x | x in r.Image(CableIds(cabs)) ensures x in CableIds(cs) {
      var y :| y in CableIds(cabs) && r.Apply(y) == x;
      var k :| 0 <= k < |cabs| && cabs[k].id == y;
      assert cs[k] in cs;
    }
    forall x | x in CableIds(cs) ensures x in r.Image(CableIds(cabs)) {
      var k :| 0 <= k < |cs| && cs[k].id == x;
      assert cabs[k] in cabs;
    }
  }
}
