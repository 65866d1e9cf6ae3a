/** The vertical offset applied to the second document's modules. */
module Offset {
  import opened Patch
  import opened Bounds

  /** Every module moved down by `delta` rows, nothing else changed. */
  function Shifted(mods: seq<Module>, delta: int): seq<Module>
  {
    seq(|mods|, i requires 0 <= i < |mods| => mods[i].(row := mods[i].row + delta))
  }

  /** The offset loop: adds `delta` to the row of every module, in place. */
  method ShiftRows(mods: seq<Module>, delta: int) returns (r: seq<Module>)
    ensures |r| == |mods|
    ensures forall i :: 0 <= i < |mods| ==> r[i].row == mods[i].row + delta
    ensures forall i :: 0 <= i < |mods| ==> r[i] == mods[i].(row := r[i].row)
    ensures r == Shifted(mods, delta)
  {
    r := mods;
    var i := 0;
    while i < |r|
      invariant 0 <= i <= |r| == |mods|
      invariant forall k :: 0 <= k < i ==> r[k] == mods[k].(row := mods[k].row + delta)
      invariant forall k :: i <= k < |r| ==> r[k] == mods[k]
    {
      r := r[i := r[i].(row := r[i].row + delta)];
      i := i + 1;
    }
  }

  /** Shifting leaves the identifiers alone. */
  lemma ShiftKeepsIds(mods: seq<Module>, delta: int)
    ensures ModuleIds(Shifted(mods, delta)) == ModuleIds(mods)
  {
    var s := Shifted(mods, delta);
    forall x | x in ModuleIds(mods) ensures x in ModuleIds(s) {
      var k :| 0 <= k < |mods| && mods[k].id == x;
      assert s[k] in s;
    }
    forall x | x in ModuleIds(s) ensures x in ModuleIds(mods) {
      var k :| 0 <= k < |s| && s[k].id == x;
      assert mods[k] in mods;
    }
  }

  /** Moving rows that are not negative down past `top` puts them strictly
      below every module whose row is at most `top`. */
  lemma ShiftedPast(mods1: seq<Module>, mods2: seq<Module>, top: int)
    requires forall m :: m in mods1 ==> m.row <= top
    requires forall m :: m in mods2 ==> m.row >= 0
    ensures forall m1, m2 :: m1 in mods1 && m2 in Shifted(mods2, top + 1) ==> m1.row < m2.row
  {
    var s := Shifted(mods2, top + 1);
    forall m2 | m2 in s ensures m2.row > top {
      var j :| 0 <= j < |s| && s[j] == m2;
      assert mods2[j] in mods2;
    }
  }

  /** With `delta = maxRow + 1` of the first document and no negative row in
      the second, every shifted module lies strictly below every module of
      the first document. */
  lemma ShiftedBelow(mods1: seq<Module>, mods2: seq<Module>)
    requires |mods1| > 0
    requires forall m :: m in mods2 ==> m.row >= 0
    ensures forall m1, m2 :: m1 in mods1 && m2 in Shifted(mods2, BoundingBox(mods1).maxRow + 1) ==>
      m1.row < m2.row
  {
    BoundingBoxTight(mods1);
    ShiftedPast(mods1, mods2, BoundingBox(mods1).maxRow);
  }

  /** Without that condition the guarantee fails: a first document whose
      lowest module is on row 0 and a second one with a module on row -1. */
  lemma NegativeRowOverlaps()
    ensures var m1 := [Module(1, 0, 0, Absent, Absent, "")];
            var m2 := [Module(2, 0, -1, Absent, Absent, "")];
            Shifted(m2, BoundingBox(m1).maxRow + 1)[0].row == m1[0].row
  {
  }
}
