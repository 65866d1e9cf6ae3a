/** The bounding box computed by the `minmax` class: the least and greatest
    row and column over the positions of a document's modules. */
module Bounds {
  import opened Patch

  datatype Box = Box(minRow: int, maxRow: int, minCol: int, maxCol: int)

  function Min(a: int, b: int): int { if a <= b then a else b }
  function Max(a: int, b: int): int { if a >= b then a else b }

  /** Every module lies inside the box. */
  predicate Encloses(b: Box, mods: seq<Module>)
  {
    forall m :: m in mods ==> b.minRow <= m.row <= b.maxRow && b.minCol <= m.col <= b.maxCol
  }

  /** Every edge of the box is touched by some module. */
  predicate Attained(b: Box, mods: seq<Module>)
  {
    && (exists m :: m in mods && m.row == b.minRow)
    && (exists m :: m in mods && m.row == b.maxRow)
    && (exists m :: m in mods && m.col == b.minCol)
    && (exists m :: m in mods && m.col == b.maxCol)
  }

  /** The box widened to take in one more module, one coordinate at a time
      as in the loop of `minmax`. */
  function Widen(b: Box, m: Module): Box
  {
    Box(Min(b.minRow, m.row), Max(b.maxRow, m.row), Min(b.minCol, m.col), Max(b.maxCol, m.col))
  }

  /** The box of a non-empty list of modules: that of its first module,
      widened by each of the others in turn. */
  function BoundingBox(mods: seq<Module>): Box
    requires |mods| > 0
  {
    var n := |mods|;
    if n == 1 then Box(mods[0].row, mods[0].row, mods[0].col, mods[0].col)
    else Widen(BoundingBox(mods[..n - 1]), mods[n - 1])
  }

  /** The box encloses every module and each of its four edges is attained
      by some module. */
  lemma {:induction false} BoundingBoxTight(mods: seq<Module>)
    requires |mods| > 0
    ensures Encloses(BoundingBox(mods), mods) && Attained(BoundingBox(mods), mods)
  {
    var n := |mods|;
    if n == 1 {
      assert mods[0] in mods;
    } else {
      var init := mods[..n - 1];
      BoundingBoxTight(init);
      assert mods == init + [mods[n - 1]];
    }
  }

  /** The two properties determine the box: a box that encloses the modules
      and is attained on each edge is their bounding box. */
  lemma BoxUnique(b: Box, mods: seq<Module>)
    requires |mods| > 0
    requires Encloses(b, mods) && Attained(b, mods)
    ensures b == BoundingBox(mods)
  {
    BoundingBoxTight(mods);
  }

  /** `minmax.__init__`: start from the first module's position, then widen
      over every module (the first one included). */
  method ComputeBox(mods: seq<Module>) returns (b: Box)
    requires |mods| > 0
    ensures b == BoundingBox(mods)
    ensures Encloses(b, mods) && Attained(b, mods)
  {
    b := Box(mods[0].row, mods[0].row, mods[0].col, mods[0].col);
    var i := 0;
    while i < |mods|
      invariant 0 <= i <= |mods|
      invariant b == BoundingBox(mods[..if i == 0 then 1 else i])
    {
      var m := mods[i];
      b := b.(maxRow := Max(b.maxRow, m.row));
      b := b.(minRow := Min(b.minRow, m.row));
      b := b.(maxCol := Max(b.maxCol, m.col));
      b := b.(minCol := Min(b.minCol, m.col));
      if i > 0 {
        assert mods[..i + 1][..i] == mods[..i];
      }
      i := i + 1;
    }
    assert mods[..|mods|] == mods;
    BoundingBoxTight(mods);
  }
}
